// src/server.ts: the standalone legacy server. Its chat handler parses
// `!contrib <file> line:<n> [char:<m>] <code>` and stores the submission
// under the sender's user row; its status route accepts or rejects a
// contribution and counts the decision on the contributor's row.
module LegacyServer {
  import opened Text
  import opened Patterns

  /** What `parseContribution` returns. */
  datatype Submission = Submission(filename: string, lineNumber: nat, characterNumber: Option<nat>, code: string)

  /** The case-sensitive literal `lit` at position i. */
  predicate LitAt(s: string, i: nat, lit: string) {
    i + |lit| <= |s| && s[i..i + |lit|] == lit
  }

  /** `LABEL\s*(\d+)` at i: the bounds of the (maximal) digit run. */
  function NumberAfter(s: string, i: nat, tag: string): (r: Option<(nat, nat)>)
    ensures r.Some? ==> i + |tag| <= r.value.0 < r.value.1 <= |s| && AllDigits(s[r.value.0..r.value.1])
    ensures r.Some? ==> r.value.1 < |s| ==> !IsDigit(s[r.value.1])
  {
    if !LitAt(s, i, tag) then None
    else
      var c := WsEnd(s, i + |tag|);
      if c < |s| && IsDigit(s[c]) then
        var d := DigitsEnd(s, c);
        assert forall k :: 0 <= k < d - c ==> s[c..d][k] == s[c + k];
        Some((c, d))
      else None
  }

  /** The group `(.+)` when it starts at k: the rest of the line. */
  function LineText(s: string, k: nat): (t: string)
    requires k < |s| && !IsLineTerminator(s[k])
    ensures t != [] && forall j :: 0 <= j < |t| ==> !IsLineTerminator(t[j])
  {
    var e := LineEnd(s, k);
    assert forall j :: 0 <= j < e - k ==> s[k..e][j] == s[k + j];
    s[k..e]
  }

  /** `!contrib\s+(\S+)\s+` at p: the bounds of the filename token and where `line:` must start. */
  function FilenameAt(s: string, p: nat): (r: Option<(nat, nat, nat)>)
    ensures r.Some? ==> p < r.value.0 < r.value.1 < r.value.2 <= |s|
    ensures r.Some? ==> forall k :: r.value.0 <= k < r.value.1 ==> !IsWs(s[k])
  {
    if !LitAt(s, p, "!contrib") || p + 8 >= |s| || !IsWs(s[p + 8]) then None
    else
      var a := WsEnd(s, p + 8);
      if a == |s| then None
      else
        var b := NonWsEnd(s, a);
        if b == |s| then None else Some((a, b, WsEnd(s, b)))
  }

  /**
   * `(?:\s+char:\s*(\d+))?\s+(.+)` after the line number, which ends at d.
   * The optional group is tried first and kept only when `\s+(.+)` can follow
   * it; otherwise the code starts right after the line number.
   */
  function TailAt(s: string, d: nat): (r: Option<(Option<nat>, string)>)
    requires d <= |s|
    ensures r.Some? ==> r.value.1 != [] && forall j :: 0 <= j < |r.value.1| ==> !IsLineTerminator(r.value.1[j])
  {
    var charGroup := if d < |s| && IsWs(s[d]) then NumberAfter(s, WsEnd(s, d), "char:") else None;
    var withChar := if charGroup.Some? then CodeStart(s, charGroup.value.1) else None;
    if withChar.Some? then
      Some((Some(DigitsValue(s[charGroup.value.0..charGroup.value.1])), LineText(s, withChar.value)))
    else
      match CodeStart(s, d)
      case None => None
      case Some(k) => Some((None, LineText(s, k)))
  }

  /**
   * `!contrib\s+(\S+)\s+line:\s*(\d+)(?:\s+char:\s*(\d+))?\s+(.+)` with its
   * match starting at p. Every run is maximal because what follows it cannot
   * extend it.
   */
  function SubmissionAt(s: string, p: nat): (r: Option<Submission>)
    ensures r.Some? ==> r.value.filename != [] && forall k :: 0 <= k < |r.value.filename| ==> !IsWs(r.value.filename[k])
    ensures r.Some? ==> r.value.code != [] && forall k :: 0 <= k < |r.value.code| ==> !IsLineTerminator(r.value.code[k])
  {
    match FilenameAt(s, p)
    case None => None
    case Some((a, b, c)) =>
      assert forall k :: 0 <= k < b - a ==> s[a..b][k] == s[a + k];
      match NumberAfter(s, c, "line:")
      case None => None
      case Some((d0, d)) =>
        match TailAt(s, d)
        case None => None
        case Some((ch, code)) => Some(Submission(s[a..b], DigitsValue(s[d0..d]), ch, code))
  }

  function SubmissionPattern(s: string): nat -> bool {
    (p: nat) => SubmissionAt(s, p).Some?
  }

  /** `parseContribution`: the groups of the leftmost match, or null. */
  function ParseLegacy(message: string): (r: Option<Submission>)
    ensures r.Some? ==> r.value.filename != [] && r.value.code != []
  {
    match Leftmost(message, SubmissionPattern(message))
    case None => None
    case Some(p) => SubmissionAt(message, p)
  }

  /** The result is null only when the pattern matches nowhere in the line. */
  lemma NullOnlyWithoutMatch(message: string, p: nat)
    requires p <= |message| && SubmissionAt(message, p).Some?
    ensures ParseLegacy(message).Some?
  {
    LeftmostSome(message, SubmissionPattern(message), p);
  }

  // ---------------------------------------------------------------------
  // The SQLite tables behind the legacy server

  datatype User = User(id: nat, acceptedContributions: nat, rejectedContributions: nat)

  datatype Row = Row(userId: nat, filename: string, lineNumber: nat, characterNumber: Option<nat>, code: string, status: string)

  datatype Tables = Tables(users: map<string, User>, rows: map<nat, Row>, nextUserId: nat, nextRowId: nat)

  /** User ids are unique, as the autoincrement key makes them. */
  predicate ValidTables(t: Tables) {
    forall u, v :: u in t.users && v in t.users && u != v ==> t.users[u].id != t.users[v].id
  }

  /**
   * The message handler: ignore the bot's own messages and lines not starting
   * with `!contrib` or not parsing; otherwise insert the user if absent and
   * store the submission as a pending row under that user's id.
   */
  function Receive(t: Tables, username: string, message: string, self: bool): Tables {
    if self || !StartsWith(message, "!contrib") then t
    else
      match ParseLegacy(message)
      case None => t
      case Some(c) => Insert(t, username, c)
  }

  /** `INSERT OR IGNORE` the user, then insert the submission as a pending row under the user's id. */
  function Insert(t: Tables, username: string, c: Submission): Tables {
    var t1 := if username in t.users then t
              else t.(users := t.users[username := User(t.nextUserId, 0, 0)], nextUserId := t.nextUserId + 1);
    t1.(rows := t1.rows[t1.nextRowId := Row(t1.users[username].id, c.filename, c.lineNumber, c.characterNumber, c.code, "pending")],
        nextRowId := t1.nextRowId + 1)
  }

  datatype Response = Response(httpStatus: nat, success: bool)

  /** `accepted_contributions` or `rejected_contributions` of every user with id `uid`, plus one. */
  function CountDecision(users: map<string, User>, uid: nat, accepted: bool): (r: map<string, User>)
    ensures r.Keys == users.Keys
  {
    map u | u in users ::
      if users[u].id != uid then users[u]
      else if accepted then users[u].(acceptedContributions := users[u].acceptedContributions + 1)
      else users[u].(rejectedContributions := users[u].rejectedContributions + 1)
  }

  /**
   * `POST /contributions/:id/status`: a status other than `accepted` or
   * `rejected` is refused with 400; a failing database answers 500; otherwise
   * the row's status is set and the decision is counted on its author.
   */
  function UpdateStatus(t: Tables, id: nat, status: string, dbFails: bool): (Tables, Response) {
    if status != "accepted" && status != "rejected" then (t, Response(400, false))
    else if dbFails then (t, Response(500, false))
    else if id !in t.rows then (t, Response(200, true))
    else
      var t1 := t.(rows := t.rows[id := t.rows[id].(status := status)]);
      (t1.(users := CountDecision(t1.users, t.rows[id].userId, status == "accepted")), Response(200, true))
  }

  /** The database the legacy server writes through. */
  class LegacyDatabase {
    var users: map<string, User>
    var rows: map<nat, Row>
    var nextUserId: nat
    var nextRowId: nat

    function State(): Tables
      reads this
    {
      Tables(users, rows, nextUserId, nextRowId)
    }

    constructor()
      ensures State() == Tables(map[], map[], 1, 1)
    {
      users := map[];
      rows := map[];
      nextUserId := 1;
      nextRowId := 1;
    }

    /** The `message` listener of the legacy server. */
    method OnMessage(username: string, message: string, self: bool)
      modifies this
      ensures State() == Receive(old(State()), username, message, self)
    {
      if self || !StartsWith(message, "!contrib") {
        return;
      }
      var contribution := ParseLegacy(message);
      if contribution.None? {
        return;
      }
      ghost var t := State();
      var c := contribution.value;
      assert Receive(t, username, message, self) == Insert(t, username, c);
      if username !in users {
        users := users[username := User(nextUserId, 0, 0)];
        nextUserId := nextUserId + 1;
      }
      ghost var t1 := State();
      assert t1 == if username in t.users then t
                   else t.(users := t.users[username := User(t.nextUserId, 0, 0)], nextUserId := t.nextUserId + 1);
      var userId := users[username].id;
      rows := rows[nextRowId := Row(userId, c.filename, c.lineNumber, c.characterNumber, c.code, "pending")];
      nextRowId := nextRowId + 1;
    }

    /** The status route; `dbFails` stands for the error callback of the first update. */
    method PostStatus(id: nat, status: string, dbFails: bool) returns (response: Response)
      modifies this
      ensures (State(), response) == UpdateStatus(old(State()), id, status, dbFails)
    {
      if status != "accepted" && status != "rejected" {
        return Response(400, false);
      }
      if dbFails {
        return Response(500, false);
      }
      if id in rows {
        var author := rows[id].userId;
        rows := rows[id := rows[id].(status := status)];
        users := CountDecision(users, author, status == "accepted");
      }
      return Response(200, true);
    }
  }

  // ---------------------------------------------------------------------

  /** A status outside the whitelist is refused with 400 and writes nothing. */
  lemma StatusWhitelist(t: Tables, id: nat, status: string, dbFails: bool)
    ensures UpdateStatus(t, id, status, dbFails).1.success <==> (status in {"accepted", "rejected"} && !dbFails)
    ensures status !in {"accepted", "rejected"} ==> UpdateStatus(t, id, status, dbFails) == (t, Response(400, false))
  {
  }

  /**
   * Accepting counts on the author's accepted counter and rejecting on the
   * rejected counter, by exactly one; every other user and counter is
   * unchanged, and only that row's status changes.
   */
  lemma CountsOneDecision(t: Tables, id: nat, status: string, u: string)
    requires ValidTables(t) && status in {"accepted", "rejected"} && id in t.rows && u in t.users
    ensures var t' := UpdateStatus(t, id, status, false).0;
      && t'.rows == t.rows[id := t.rows[id].(status := status)]
      && u in t'.users
      && (t.users[u].id != t.rows[id].userId ==> t'.users[u] == t.users[u])
      && (t.users[u].id == t.rows[id].userId ==>
            t'.users[u].acceptedContributions == t.users[u].acceptedContributions + (if status == "accepted" then 1 else 0) &&
            t'.users[u].rejectedContributions == t.users[u].rejectedContributions + (if status == "rejected" then 1 else 0))
  {
  }

  /** The bot's own messages and lines not starting with `!contrib` write nothing. */
  lemma IgnoredMessages(t: Tables, username: string, message: string, self: bool)
    requires self || !StartsWith(message, "!contrib")
    ensures Receive(t, username, message, self) == t
  {
  }

  /**
   * A line that parses adds exactly one pending row, under the next row id,
   * holding the parsed fields and the id of the sender's user row; an existing
   * user row is reused.
   */
  lemma StoresParsedSubmission(t: Tables, username: string, message: string)
    requires StartsWith(message, "!contrib") && ParseLegacy(message).Some?
    ensures var t' := Receive(t, username, message, false);
      var c := ParseLegacy(message).value;
      && username in t'.users
      && (username in t.users ==> t'.users == t.users)
      && t'.rows == t.rows[t.nextRowId := Row(t'.users[username].id, c.filename, c.lineNumber, c.characterNumber, c.code, "pending")]
  {
  }

  /** Receiving keeps user ids unique when the next user id is above all taken ones. */
  lemma ReceiveKeepsIdsUnique(t: Tables, username: string, message: string, self: bool)
    requires ValidTables(t) && forall u :: u in t.users ==> t.users[u].id < t.nextUserId
    ensures ValidTables(Receive(t, username, message, self))
  {
  }

  lemma ExampleFilename(s: string)
    requires s == "!contrib a.js line:3 x"
    ensures FilenameAt(s, 0) == Some((9, 13, 14))
  {
    assert LitAt(s, 0, "!contrib");
    assert WsEnd(s, 9) == 9;
    assert NonWsEnd(s, 13) == 13 && NonWsEnd(s, 12) == 13 && NonWsEnd(s, 11) == 13;
    assert NonWsEnd(s, 10) == 13 && NonWsEnd(s, 9) == 13;
    assert WsEnd(s, 14) == 14 && WsEnd(s, 13) == 14;
  }

  lemma ExampleTail(s: string)
    requires s == "!contrib a.js line:3 x"
    ensures NumberAfter(s, 14, "line:") == Some((19, 20))
    ensures TailAt(s, 20) == Some((None, "x"))
  {
    assert LitAt(s, 14, "line:");
    assert WsEnd(s, 19) == 19 && DigitsEnd(s, 20) == 20 && DigitsEnd(s, 19) == 20;
    assert WsEnd(s, 21) == 21 && !LitAt(s, 21, "char:");
    assert WsEnd(s, 20) == 21 && CodeStart(s, 20) == Some(21);
    assert LineEnd(s, 22) == 22 && LineEnd(s, 21) == 22;
    assert s[21..22] == "x";
  }

  lemma ExampleFields(s: string)
    requires s == "!contrib a.js line:3 x"
    ensures SubmissionAt(s, 0) == Some(Submission("a.js", 3, None, "x"))
  {
    ExampleFilename(s);
    ExampleTail(s);
    assert s[9..13] == "a.js" && s[19..20] == "3";
    assert DigitsValue("3") == 3;
  }

  /** `!contrib a.js line:3 x` stores `x` for line 3 of `a.js`, with no character position. */
  lemma Example(s: string)
    requires s == "!contrib a.js line:3 x"
    ensures ParseLegacy(s) == Some(Submission("a.js", 3, None, "x"))
  {
    ExampleFields(s);
    LeftmostAtStart(s, SubmissionPattern(s));
  }

  /** `!contrib\s+(\S+)\s+` on `!contrib FILE REST`: the filename is FILE and `line:` must start right after the space. */
  lemma FilenameOfLine(m: string, f: string, rest: string)
    requires m == "!contrib " + f + " " + rest
    requires f != [] && forall k :: 0 <= k < |f| ==> !IsWs(f[k])
    requires rest != [] && !IsWs(rest[0])
    ensures FilenameAt(m, 0).Some? && FilenameAt(m, 0).value.0 == 9
    ensures FilenameAt(m, 0).value.1 == 9 + |f| && FilenameAt(m, 0).value.2 == 10 + |f|
    ensures m[9..9 + |f|] == f && m[10 + |f|..] == rest
  {
    var b: nat := 9 + |f|;
    assert m[..8] == "!contrib";
    assert forall k :: 0 <= k < |f| ==> m[9 + k] == f[k];
    assert m[b] == ' ' && m[b + 1] == rest[0];
    assert LitAt(m, 0, "!contrib");
    assert WsEnd(m, 8) == 9 by { assert IsWs(m[8]) && m[9] == f[0]; }
    NonWsEndAt(m, 9, b);
    assert WsEnd(m, b) == b + 1;
    assert m[9..b] == f;
    assert m[b + 1..] == rest;
  }

  /** `line:\s*(\d+)` at c, when `line:` is followed directly by the digit string n and a non-digit. */
  lemma LineNumberOfLine(m: string, c: nat, n: string)
    requires c + 5 + |n| < |m| && m[c..c + 5] == "line:" && m[c + 5..c + 5 + |n|] == n
    requires n != [] && AllDigits(n) && !IsDigit(m[c + 5 + |n|])
    ensures NumberAfter(m, c, "line:").Some?
    ensures NumberAfter(m, c, "line:").value.0 == c + 5 && NumberAfter(m, c, "line:").value.1 == c + 5 + |n|
  {
    assert forall k :: 0 <= k < |n| ==> m[c + 5 + k] == n[k];
    assert WsEnd(m, c + 5) == c + 5 by { assert m[c + 5] == n[0]; }
    DigitsEndAt(m, c + 5, c + 5 + |n|);
  }

  /** `(?:\s+char:\s*(\d+))?\s+(.+)` at d, when one space and the code follow. */
  lemma TailOfLine(m: string, d: nat, code: string)
    requires d < |m| && m[d] == ' ' && m[d + 1..] == code
    requires code != [] && !IsWs(code[0]) && !StartsWith(code, "char:")
    requires forall k :: 0 <= k < |code| ==> !IsLineTerminator(code[k])
    ensures TailAt(m, d) == Some((None, code))
  {
    assert forall k :: 0 <= k < |code| ==> m[d + 1 + k] == code[k];
    assert WsEnd(m, d) == d + 1 by { assert m[d + 1] == code[0]; }
    assert !LitAt(m, d + 1, "char:") by {
      if d + 6 <= |m| {
        assert m[d + 1..d + 6] == code[..5];
      }
    }
    assert NumberAfter(m, d + 1, "char:").None?;
    assert CodeStart(m, d) == Some(d + 1);
    LineEndAt(m, d + 1, |m|);
    assert LineText(m, d + 1) == m[d + 1..|m|] == code;
    assert IsWs(m[d]);
    assert TailAt(m, d).Some?;
  }

  /** The parts of `line:N CODE`. */
  lemma RestOfLine(rest: string, n: string, code: string)
    requires rest == "line:" + n + " " + code
    ensures |rest| == 6 + |n| + |code|
    ensures rest[..5] == "line:" && rest[5..5 + |n|] == n && rest[5 + |n|] == ' ' && rest[6 + |n|..] == code
  {
  }

  /** Where the parts of `line:N CODE` sit when it starts at c. */
  lemma RestAt(m: string, c: nat, rest: string, n: string, code: string)
    requires c <= |m| && m[c..] == rest && rest == "line:" + n + " " + code
    ensures c + 5 + |n| < |m| && m[c..c + 5] == "line:" && m[c + 5..c + 5 + |n|] == n
    ensures m[c + 5 + |n|] == ' ' && m[c + 6 + |n|..] == code
  {
    RestOfLine(rest, n, code);
    assert m[c..c + 5] == rest[..5];
    assert m[c + 5..c + 5 + |n|] == rest[5..5 + |n|];
    assert m[c + 5 + |n|] == rest[5 + |n|];
    assert m[c + 6 + |n|..] == rest[6 + |n|..];
  }

  /** The groups of a match at 0 from where each part was found. */
  lemma SubmissionFromParts(m: string, f: string, n: string, code: string, c: nat, d: nat)
    requires FilenameAt(m, 0).Some? && FilenameAt(m, 0).value.0 == 9
    requires FilenameAt(m, 0).value.1 == 9 + |f| && FilenameAt(m, 0).value.2 == c
    requires m[9..9 + |f|] == f
    requires NumberAfter(m, c, "line:").Some?
    requires NumberAfter(m, c, "line:").value.0 == c + 5 && NumberAfter(m, c, "line:").value.1 == d
    requires c + 5 <= d <= |m| && m[c + 5..d] == n && AllDigits(n)
    requires TailAt(m, d) == Some((None, code))
    ensures SubmissionAt(m, 0) == Some(Submission(f, DigitsValue(n), None, code))
  {
  }

  /** `parseContribution` on `!contrib FILE REST` with REST being `line:N CODE`. */
  lemma ParseLegacyOfParts(m: string, f: string, rest: string, n: string, code: string)
    requires m == "!contrib " + f + " " + rest && rest == "line:" + n + " " + code
    requires f != [] && forall k :: 0 <= k < |f| ==> !IsWs(f[k])
    requires n != [] && AllDigits(n)
    requires code != [] && !IsWs(code[0]) && !StartsWith(code, "char:")
    requires forall k :: 0 <= k < |code| ==> !IsLineTerminator(code[k])
    ensures ParseLegacy(m) == Some(Submission(f, DigitsValue(n), None, code))
  {
    FilenameOfLine(m, f, rest);
    var c: nat := 10 + |f|;
    RestAt(m, c, rest, n, code);
    LineNumberOfLine(m, c, n);
    TailOfLine(m, c + 5 + |n|, code);
    SubmissionFromParts(m, f, n, code, c, c + 5 + |n|);
    LeftmostAtStart(m, SubmissionPattern(m));
  }

  /**
   * For every filename without whitespace, every digit string and every line
   * of code that starts with neither whitespace nor `char:`, the line
   * `!contrib FILE line:N CODE` gives back exactly those three parts.
   */
  lemma ParseLegacyRoundTrip(f: string, n: string, code: string)
    requires f != [] && forall k :: 0 <= k < |f| ==> !IsWs(f[k])
    requires n != [] && AllDigits(n)
    requires code != [] && !IsWs(code[0]) && !StartsWith(code, "char:")
    requires forall k :: 0 <= k < |code| ==> !IsLineTerminator(code[k])
    ensures ParseLegacy("!contrib " + f + " line:" + n + " " + code) == Some(Submission(f, DigitsValue(n), None, code))
  {
    var rest := "line:" + n + " " + code;
    assert "!contrib " + f + " " + rest == "!contrib " + f + " line:" + n + " " + code;
    ParseLegacyOfParts("!contrib " + f + " " + rest, f, rest, n, code);
  }
}
