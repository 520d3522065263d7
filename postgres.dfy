// lib/db-postgres.ts: the Postgres adapter. `query` rewrites the `?`
// placeholders of a statement into Postgres's numbered `$1, $2, ...`; the
// accessors turn a failing or empty answer into a fixed fallback. The SQL
// itself is not part of this model: each accessor receives the driver's
// answer (its rows, or `Err` when the driver throws) as a parameter.
module Postgres {
  import opened Text

  /** Occurrences of `c` in `s`. */
  function CountChar(s: string, c: char): nat {
    if s == [] then 0 else (if s[0] == c then 1 else 0) + CountChar(s[1..], c)
  }

  /**
   * The statement with each `?`, from the left, replaced by `$` and the next
   * value of the counter, starting from `next`.
   */
  function Renumber(s: string, next: nat): string
  {
    if s == [] then []
    else if s[0] == '?' then "$" + NatToString(next) + Renumber(s[1..], next + 1)
    else [s[0]] + Renumber(s[1..], next)
  }

  lemma DigitsHaveNoPlaceholder(n: string)
    requires AllDigits(n)
    ensures '?' !in n
  {
    forall k | 0 <= k < |n| ensures n[k] != '?' {
      assert IsDigit(n[k]);
    }
  }

  /** The statement `query` sends: renumbered only when parameters are given and there is at least one. */
  function PgSql(sqlStatement: string, params: Option<seq<string>>): string {
    if params.Some? && |params.value| > 0 then Renumber(sqlStatement, 1) else sqlStatement
  }

  /** The rewrite inside `query`, with its `paramIndex` counter. */
  method RewritePlaceholders(sqlStatement: string, params: Option<seq<string>>) returns (pgSql: string)
    ensures pgSql == PgSql(sqlStatement, params)
  {
    pgSql := sqlStatement;
    if params.Some? && |params.value| > 0 {
      var paramIndex := 0;
      var out := "";
      var i := 0;
      while i < |sqlStatement|
        invariant 0 <= i <= |sqlStatement|
        invariant out + Renumber(sqlStatement[i..], paramIndex + 1) == Renumber(sqlStatement, 1)
      {
        assert sqlStatement[i..][0] == sqlStatement[i] && sqlStatement[i..][1..] == sqlStatement[i + 1..];
        if sqlStatement[i] == '?' {
          paramIndex := paramIndex + 1;
          out := out + "$" + NatToString(paramIndex);
        } else {
          out := out + [sqlStatement[i]];
        }
        i := i + 1;
      }
      assert sqlStatement[i..] == [];
      pgSql := out;
    }
  }

  /** `query`: the rewritten statement, and the driver's rows; a driver error is rethrown. */
  method Query<T>(sqlStatement: string, params: Option<seq<string>>, answer: Result<seq<T>>)
    returns (pgSql: string, rows: Result<seq<T>>)
    ensures pgSql == PgSql(sqlStatement, params)
    ensures rows.Err? <==> answer.Err?
    ensures rows.Ok? ==> rows.value == answer.value
  {
    pgSql := RewritePlaceholders(sqlStatement, params);
    rows := answer;
  }

  // ---------------------------------------------------------------------
  // The accessors' fallbacks

  /** `getContributions`: the rows, or `[]` when the driver throws. */
  function GetContributions<T>(answer: Result<seq<T>>): (r: seq<T>)
    ensures answer.Err? ==> r == []
    ensures answer.Ok? ==> r == answer.value
  {
    if answer.Err? then [] else answer.value
  }

  /** `getContribution(id)`: the first row, or null when there is none or the driver throws. */
  function GetContribution<T>(answer: Result<seq<T>>): (r: Option<T>)
    ensures r.Some? <==> answer.Ok? && |answer.value| > 0
    ensures r.Some? ==> r.value == answer.value[0]
  {
    if answer.Ok? && |answer.value| > 0 then Some(answer.value[0]) else None
  }

  /** `checkSimilarContribution`: whether any row came back; `false` when the driver throws. */
  function CheckSimilar<T>(answer: Result<seq<T>>): (r: bool)
    ensures r <==> answer.Ok? && answer.value != []
  {
    answer.Ok? && |answer.value| > 0
  }

  /** `createContribution`: the returned row (the new id), or null when the driver throws. */
  function CreateContribution<T>(answer: Result<seq<T>>): (r: Option<T>)
    ensures answer.Err? ==> r.None?
    ensures answer.Ok? && answer.value != [] ==> r == Some(answer.value[0])
  {
    if answer.Ok? && |answer.value| > 0 then Some(answer.value[0]) else None
  }

  // ---------------------------------------------------------------------

  /** No placeholder is left after renumbering. */
  lemma {:induction false} NoPlaceholderLeft(s: string, next: nat)
    ensures '?' !in Renumber(s, next)
    decreases |s|
  {
    if s != [] {
      if s[0] == '?' {
        NoPlaceholderLeft(s[1..], next + 1);
        DigitsHaveNoPlaceholder(NatToString(next));
        var r := "$" + NatToString(next) + Renumber(s[1..], next + 1);
        assert '?' !in r by {
          forall k | 0 <= k < |r| ensures r[k] != '?' {
            if k == 0 {
            } else if k < 1 + |NatToString(next)| {
              assert r[k] == NatToString(next)[k - 1];
            } else {
              assert r[k] == Renumber(s[1..], next + 1)[k - 1 - |NatToString(next)|];
            }
          }
        }
      } else {
        NoPlaceholderLeft(s[1..], next);
        var r := [s[0]] + Renumber(s[1..], next);
        assert '?' !in r by {
          forall k | 0 <= k < |r| ensures r[k] != '?' {
            if k > 0 {
              assert r[k] == Renumber(s[1..], next)[k - 1];
            }
          }
        }
      }
    }
  }

  /** A statement without placeholders is sent unchanged. */
  lemma {:induction false} NoPlaceholderUnchanged(s: string, next: nat)
    requires '?' !in s
    ensures Renumber(s, next) == s
    ensures CountChar(s, '?') == 0
    decreases |s|
  {
    if s != [] {
      assert s[0] in s;
      assert s == [s[0]] + s[1..];
      assert forall k :: 0 <= k < |s[1..]| ==> s[1..][k] == s[k + 1];
      NoPlaceholderUnchanged(s[1..], next);
    }
  }

  /** Renumbering a concatenation continues the count where the first part stopped. */
  lemma {:induction false} RenumberConcat(a: string, b: string, next: nat)
    ensures Renumber(a + b, next) == Renumber(a, next) + Renumber(b, next + CountChar(a, '?'))
    decreases |a|
  {
    if a == [] {
      assert a + b == b;
    } else {
      var t := a[1..];
      assert (a + b)[0] == a[0] && (a + b)[1..] == t + b;
      if a[0] == '?' {
        var head := "$" + NatToString(next);
        RenumberConcat(t, b, next + 1);
        var x := Renumber(t, next + 1);
        var y := Renumber(b, next + 1 + CountChar(t, '?'));
        assert Renumber(a + b, next) == head + (x + y);
        assert Renumber(a, next) == head + x;
        assert CountChar(a, '?') == 1 + CountChar(t, '?');
        assert head + (x + y) == (head + x) + y;
      } else {
        RenumberConcat(t, b, next);
        var x := Renumber(t, next);
        var y := Renumber(b, next + CountChar(t, '?'));
        assert Renumber(a + b, next) == [a[0]] + (x + y);
        assert Renumber(a, next) == [a[0]] + x;
        assert CountChar(a, '?') == CountChar(t, '?');
        assert [a[0]] + (x + y) == ([a[0]] + x) + y;
      }
    }
  }

  /** With parameters given, the k-th `?` from the left becomes `$k`. */
  lemma KthPlaceholder(a: string, b: string, params: seq<string>)
    requires |params| > 0
    ensures PgSql(a + "?" + b, Some(params)) ==
      Renumber(a, 1) + "$" + NatToString(CountChar(a, '?') + 1) + Renumber(b, CountChar(a, '?') + 2)
  {
    var k := CountChar(a, '?');
    var qb := "?" + b;
    assert a + "?" + b == a + qb;
    RenumberConcat(a, qb, 1);
    assert qb[0] == '?' && qb[1..] == b;
    var n := NatToString(k + 1);
    var rest := Renumber(b, k + 2);
    assert Renumber(qb, k + 1) == "$" + n + rest;
    assert PgSql(a + qb, Some(params)) == Renumber(a, 1) + ("$" + n + rest);
    assert Renumber(a, 1) + ("$" + n + rest) == Renumber(a, 1) + "$" + n + rest;
  }

  /** The text between the placeholders, joined by `$next`, `$next+1`, ... in order. */
  function Numbered(parts: seq<string>, next: nat): string
    decreases |parts|
  {
    if |parts| == 0 then ""
    else if |parts| == 1 then parts[0]
    else parts[0] + "$" + NatToString(next) + Numbered(parts[1..], next + 1)
  }

  /**
   * Only the placeholders change: the text between them is kept as it was and
   * in its order, and the placeholders are numbered consecutively from the left.
   */
  lemma {:induction false} RenumberKeepsText(parts: seq<string>, next: nat)
    requires |parts| >= 1
    requires forall i :: 0 <= i < |parts| ==> '?' !in parts[i]
    ensures Renumber(Join(parts, "?"), next) == Numbered(parts, next)
    decreases |parts|
  {
    if |parts| == 1 {
      NoPlaceholderUnchanged(parts[0], next);
    } else {
      var rest := Join(parts[1..], "?");
      var qr := "?" + rest;
      assert Join(parts, "?") == parts[0] + qr;
      RenumberConcat(parts[0], qr, next);
      NoPlaceholderUnchanged(parts[0], next);
      assert qr[0] == '?' && qr[1..] == rest;
      assert Renumber(qr, next) == "$" + NatToString(next) + Renumber(rest, next + 1);
      RenumberKeepsText(parts[1..], next + 1);
    }
  }

  /** Any statement: the rewrite is its `?`-separated pieces joined by `$1`, `$2`, ... */
  lemma RewriteMeaning(sqlStatement: string, params: seq<string>)
    requires |params| > 0
    ensures PgSql(sqlStatement, Some(params)) == Numbered(Split(sqlStatement, '?'), 1)
    ensures '?' !in PgSql(sqlStatement, Some(params))
  {
    RenumberKeepsText(Split(sqlStatement, '?'), 1);
    NoPlaceholderLeft(sqlStatement, 1);
  }

  /** Without parameters, or with an empty list, the statement is sent as written. */
  lemma NoParamsUnchanged(sqlStatement: string, params: Option<seq<string>>)
    requires params.None? || params.value == []
    ensures PgSql(sqlStatement, params) == sqlStatement
  {
  }

  /** `query("?,?", [x, y])` sends `$1,$2`. */
  lemma Example()
    ensures PgSql("?,?", Some(["x", "y"])) == "$1,$2"
  {
    assert NatToString(1) == "1" && NatToString(2) == "2";
    assert "?,?"[1..] == ",?" && ",?"[1..] == "?" && "?"[1..] == "";
    assert Renumber("?", 2) == "$2";
    assert Renumber(",?", 2) == ",$2";
  }
}
