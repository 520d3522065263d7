// lib/contribution/formatter.ts: `formatCode(code, normalize)`.
// With `normalize` it builds the duplicate-detection key (lower case, no
// whitespace); without it, it strips the indentation common to all
// non-blank lines for storage and display.
module Formatter {
  import opened Text

  // ---------------------------------------------------------------------
  // Comparison key

  /** Drops every whitespace character. */
  function RemoveWs(s: string): (t: string)
    ensures forall i :: 0 <= i < |t| ==> !IsWs(t[i])
    ensures forall i :: 0 <= i < |t| ==> t[i] in s
    decreases |s|
  {
    if |s| == 0 then ""
    else if IsWs(s[0]) then RemoveWs(s[1..])
    else [s[0]] + RemoveWs(s[1..])
  }

  /**
   * The key `code.toLowerCase().replace(/\s+/g, '').replace(/[\r\n]/g, '')`.
   * The last replacement never finds anything: carriage returns and
   * newlines are whitespace and are already gone.
   */
  function NormalizeKey(code: string): (k: string)
    ensures forall i :: 0 <= i < |k| ==> !IsWs(k[i]) && !IsUpper(k[i])
  {
    var lowered := ToLower(code);
    var k := RemoveWs(lowered);
    assert forall i :: 0 <= i < |k| ==> !IsUpper(k[i]) by {
      forall i | 0 <= i < |k| ensures !IsUpper(k[i]) {
        assert k[i] in lowered;
        var j :| 0 <= j < |lowered| && lowered[j] == k[i];
      }
    }
    k
  }

  lemma {:induction false} RemoveWsConcat(a: string, b: string)
    ensures RemoveWs(a + b) == RemoveWs(a) + RemoveWs(b)
    decreases |a|
  {
    if |a| == 0 {
      assert a + b == b;
    } else {
      assert (a + b)[0] == a[0];
      assert (a + b)[1..] == a[1..] + b;
      RemoveWsConcat(a[1..], b);
    }
  }

  lemma {:induction false} RemoveWsBlank(s: string)
    requires IsBlank(s)
    ensures RemoveWs(s) == ""
    decreases |s|
  {
    if |s| > 0 { RemoveWsBlank(s[1..]); }
  }

  lemma {:induction false} RemoveWsNoWs(s: string)
    requires forall i :: 0 <= i < |s| ==> !IsWs(s[i])
    ensures RemoveWs(s) == s
    decreases |s|
  {
    if |s| > 0 { RemoveWsNoWs(s[1..]); }
  }

  lemma ToLowerConcat(a: string, b: string)
    ensures ToLower(a + b) == ToLower(a) + ToLower(b)
  {
  }

  /** The key of a concatenation is the concatenation of the keys. */
  lemma KeyConcat(a: string, b: string)
    ensures NormalizeKey(a + b) == NormalizeKey(a) + NormalizeKey(b)
  {
    ToLowerConcat(a, b);
    RemoveWsConcat(ToLower(a), ToLower(b));
  }

  /** Whitespace contributes nothing to the key. */
  lemma KeyOfBlank(s: string)
    requires IsBlank(s)
    ensures NormalizeKey(s) == ""
  {
    RemoveWsBlank(ToLower(s));
  }

  /** Inserting whitespace anywhere leaves the key unchanged. */
  lemma KeyIgnoresWhitespace(a: string, w: string, b: string)
    requires IsBlank(w)
    ensures NormalizeKey(a + w + b) == NormalizeKey(a + b)
  {
    KeyConcat(a + w, b);
    KeyConcat(a, w);
    KeyOfBlank(w);
    KeyConcat(a, b);
  }

  /** Inputs that differ only in letter case have the same key. */
  lemma KeyIgnoresCase(a: string, b: string)
    requires |a| == |b|
    requires forall i :: 0 <= i < |a| ==> LowerChar(a[i]) == LowerChar(b[i])
    ensures NormalizeKey(a) == NormalizeKey(b)
  {
    assert ToLower(a) == ToLower(b);
  }

  /** Normalising a key again changes nothing. */
  lemma KeyIdempotent(code: string)
    ensures NormalizeKey(NormalizeKey(code)) == NormalizeKey(code)
  {
    var k := NormalizeKey(code);
    assert ToLower(k) == k;
    RemoveWsNoWs(k);
  }

  // ---------------------------------------------------------------------
  // Display formatting

  /** `code.split('\n')`. */
  function Lines(code: string): seq<string> {
    Split(code, '\n')
  }

  /** `line.trim().length === 0`, equivalently `line.trimStart().length === 0`. */
  predicate BlankLine(line: string) {
    LeadingWs(line) == |line|
  }

  /**
   * The smallest indentation of a non-blank line, or None when every line is
   * blank (the source's `Infinity`). Defined on prefixes, in scanning order.
   */
  function MinIndent(lines: seq<string>): (r: Option<nat>)
    ensures r.None? <==> forall i :: 0 <= i < |lines| ==> BlankLine(lines[i])
    ensures r.Some? ==> exists i :: 0 <= i < |lines| && !BlankLine(lines[i]) && LeadingWs(lines[i]) == r.value
    ensures r.Some? ==> forall i :: 0 <= i < |lines| && !BlankLine(lines[i]) ==> r.value <= LeadingWs(lines[i])
    decreases |lines|
  {
    if |lines| == 0 then None
    else
      var init := lines[..|lines| - 1];
      var last := lines[|lines| - 1];
      var m := MinIndent(init);
      assert forall i :: 0 <= i < |init| ==> init[i] == lines[i];
      if BlankLine(last) then m
      else match m
        case None => Some(LeadingWs(last))
        case Some(x) => Some(if LeadingWs(last) < x then LeadingWs(last) else x)
  }

  /** The indentation actually removed: the minimum when it is positive, else nothing. */
  function CommonIndent(code: string): nat {
    match MinIndent(Lines(code))
    case None => 0
    case Some(m) => m
  }

  /** One line of the `map`: blank lines become empty, others lose `min(m, indent)` characters. */
  function StripLine(line: string, m: nat): string {
    if BlankLine(line) then ""
    else line[(if m < LeadingWs(line) then m else LeadingWs(line))..]
  }

  function StripAll(lines: seq<string>, m: nat): (r: seq<string>)
    ensures |r| == |lines|
  {
    seq(|lines|, i requires 0 <= i < |lines| => StripLine(lines[i], m))
  }

  /** `formatCode(code)`: the display form stored for a contribution. */
  function FormatDisplay(code: string): string {
    var lines := Lines(code);
    match MinIndent(lines)
    case Some(m) => if m > 0 then Join(StripAll(lines, m), "\n") else code
    case None => code
  }

  /** `formatCode(code, normalize)`, with the `for` loop that finds the minimum indentation. */
  method FormatCode(code: string, normalize: bool) returns (r: string)
    ensures r == if normalize then NormalizeKey(code) else FormatDisplay(code)
  {
    if normalize {
      return NormalizeKey(code);
    }
    var lines := Lines(code);
    var found := false;   // false stands for minIndent == Infinity
    var minIndent: nat := 0;
    var i := 0;
    while i < |lines|
      invariant 0 <= i <= |lines|
      invariant (if found then Some(minIndent) else None) == MinIndent(lines[..i])
    {
      assert lines[..i + 1][..i] == lines[..i];
      var line := lines[i];
      if !BlankLine(line) {
        var indent := LeadingWs(line);
        if !found || indent < minIndent {
          minIndent := indent;
          found := true;
        }
      }
      i := i + 1;
    }
    assert lines[..i] == lines;
    if found && minIndent > 0 {
      r := Join(StripAll(lines, minIndent), "\n");
    } else {
      r := code;
    }
  }

  // ---------------------------------------------------------------------
  // Properties of the display form

  /** The leading-whitespace count is the unique whitespace prefix followed by a non-whitespace character or the end. */
  lemma LeadingWsUnique(t: string, j: nat)
    requires j <= |t|
    requires forall k :: 0 <= k < j ==> IsWs(t[k])
    requires j == |t| || !IsWs(t[j])
    ensures LeadingWs(t) == j
  {
    var n := LeadingWs(t);
    assert forall k :: 0 <= k < n ==> t[..n][k] == t[k];
  }

  /** Removing part of the indentation of a non-blank line keeps it non-blank and lowers its indentation by that much. */
  lemma StripIndent(line: string, m: nat)
    requires !BlankLine(line) && m <= LeadingWs(line)
    ensures StripLine(line, m) == line[m..]
    ensures LeadingWs(line[m..]) == LeadingWs(line) - m
    ensures !BlankLine(line[m..])
    ensures IsBlank(line[..m])
  {
    var n := LeadingWs(line);
    assert forall k :: 0 <= k < n ==> IsWs(line[..n][k]);
    LeadingWsUnique(line[m..], n - m);
  }

  lemma NoNewlineInLines(code: string)
    ensures forall i :: 0 <= i < |Lines(code)| ==> '\n' !in Lines(code)[i]
  {
  }

  lemma StrippedHaveNoNewline(lines: seq<string>, m: nat)
    requires forall i :: 0 <= i < |lines| ==> '\n' !in lines[i]
    ensures forall i :: 0 <= i < |lines| ==> '\n' !in StripAll(lines, m)[i]
  {
    forall i | 0 <= i < |lines| ensures '\n' !in StripAll(lines, m)[i] {
      var l := lines[i];
      if !BlankLine(l) {
        var d := if m < LeadingWs(l) then m else LeadingWs(l);
        assert forall k :: 0 <= k < |l| - d ==> l[d..][k] == l[d + k] && l[d + k] in l;
      }
    }
  }

  /**
   * Display formatting keeps the number of lines; when the common indentation
   * m is positive every non-blank line loses exactly m leading whitespace
   * characters and every blank line becomes empty; otherwise the code is
   * returned unchanged.
   */
  lemma FormatDisplayLines(code: string)
    ensures |Lines(FormatDisplay(code))| == |Lines(code)|
    ensures CommonIndent(code) == 0 ==> FormatDisplay(code) == code
    ensures CommonIndent(code) > 0 ==>
      forall i :: 0 <= i < |Lines(code)| ==>
        var line := Lines(code)[i];
        if BlankLine(line) then Lines(FormatDisplay(code))[i] == ""
        else IsBlank(line[..CommonIndent(code)]) && Lines(FormatDisplay(code))[i] == line[CommonIndent(code)..]
  {
    var lines := Lines(code);
    var m := CommonIndent(code);
    if m > 0 {
      var s := StripAll(lines, m);
      NoNewlineInLines(code);
      StrippedHaveNoNewline(lines, m);
      SplitJoin(s, '\n');
      assert Lines(FormatDisplay(code)) == s;
      forall i | 0 <= i < |lines| && !BlankLine(lines[i])
        ensures IsBlank(lines[i][..m]) && s[i] == lines[i][m..]
      {
        StripIndent(lines[i], m);
      }
    }
  }

  /** Formatting twice is formatting once: after it the common indentation is zero. */
  lemma FormatDisplayIdempotent(code: string)
    ensures FormatDisplay(FormatDisplay(code)) == FormatDisplay(code)
  {
    var lines := Lines(code);
    var m := CommonIndent(code);
    if m > 0 {
      assert MinIndent(lines) == Some(m);
      var r := FormatDisplay(code);
      var s := StripAll(lines, m);
      assert r == Join(s, "\n");
      NoNewlineInLines(code);
      StrippedHaveNoNewline(lines, m);
      SplitJoin(s, '\n');
      assert Lines(r) == s;
      var j :| 0 <= j < |lines| && !BlankLine(lines[j]) && LeadingWs(lines[j]) == m;
      StripIndent(lines[j], m);
      assert s[j] == StripLine(lines[j], m);
      assert !BlankLine(s[j]) && LeadingWs(s[j]) == 0;
      assert MinIndent(s).Some? && MinIndent(s).value <= LeadingWs(s[j]);
      assert MinIndent(s) == Some(0);
      assert FormatDisplay(r) == r;
    }
  }

  /** When some line has content, some line of the result starts with a non-whitespace character. */
  lemma FormatDisplayFlushLeft(code: string)
    requires exists i :: 0 <= i < |Lines(code)| && !BlankLine(Lines(code)[i])
    ensures exists i :: (0 <= i < |Lines(FormatDisplay(code))| &&
      var line := Lines(FormatDisplay(code))[i]; line != [] && !IsWs(line[0]))
  {
    var lines := Lines(code);
    var m := CommonIndent(code);
    var j :| 0 <= j < |lines| && !BlankLine(lines[j]) && LeadingWs(lines[j]) == m;
    FormatDisplayLines(code);
    var out := Lines(FormatDisplay(code));
    if m > 0 {
      StripIndent(lines[j], m);
      assert out[j] == lines[j][m..];
      assert LeadingWs(out[j]) == 0 && !BlankLine(out[j]);
    } else {
      assert out[j] == lines[j];
    }
    assert out[j] != [] && !IsWs(out[j][0]);
  }

  lemma {:induction false} KeyOfJoin(xs: seq<string>, ys: seq<string>)
    requires |xs| == |ys|
    requires forall i :: 0 <= i < |xs| ==> NormalizeKey(xs[i]) == NormalizeKey(ys[i])
    ensures NormalizeKey(Join(xs, "\n")) == NormalizeKey(Join(ys, "\n"))
    decreases |xs|
  {
    if |xs| > 1 {
      KeyOfJoin(xs[1..], ys[1..]);
      KeyConcat(xs[0] + "\n", Join(xs[1..], "\n"));
      KeyConcat(ys[0] + "\n", Join(ys[1..], "\n"));
      KeyConcat(xs[0], "\n");
      KeyConcat(ys[0], "\n");
    }
  }

  /** Stripping one line's indentation leaves its duplicate key alone. */
  lemma StripLineKeepsKey(l: string, m: nat)
    ensures NormalizeKey(StripLine(l, m)) == NormalizeKey(l)
  {
    if BlankLine(l) {
      assert IsBlank(l);
      KeyOfBlank(l);
      KeyOfBlank("");
    } else {
      var d := if m < LeadingWs(l) then m else LeadingWs(l);
      assert l == l[..d] + l[d..];
      assert IsBlank(l[..d]) by {
        assert forall k :: 0 <= k < d ==> l[..d][k] == l[..LeadingWs(l)][k];
      }
      KeyConcat(l[..d], l[d..]);
      KeyOfBlank(l[..d]);
    }
  }

  /** Display formatting only removes whitespace, so the duplicate key is unchanged. */
  lemma FormatDisplayKeepsKey(code: string)
    ensures NormalizeKey(FormatDisplay(code)) == NormalizeKey(code)
  {
    var lines := Lines(code);
    var m := CommonIndent(code);
    if m > 0 {
      var s := StripAll(lines, m);
      forall i | 0 <= i < |lines| ensures NormalizeKey(s[i]) == NormalizeKey(lines[i]) {
        StripLineKeepsKey(lines[i], m);
      }
      KeyOfJoin(s, lines);
      assert FormatDisplay(code) == Join(s, "\n");
      assert Join(lines, "\n") == code;
    }
  }

  lemma ExampleLines()
    ensures Lines("  a\n    b\n  c") == ["  a", "    b", "  c"]
  {
    var parts := ["  a", "    b", "  c"];
    assert Join(parts, "\n") == "  a\n    b\n  c";
    SplitJoin(parts, '\n');
  }

  lemma ExampleMinIndent()
    ensures MinIndent(["  a", "    b", "  c"]) == Some(2)
  {
    var parts := ["  a", "    b", "  c"];
    LeadingWsUnique("  a", 2);
    LeadingWsUnique("    b", 4);
    LeadingWsUnique("  c", 2);
    assert parts[..2][..1] == parts[..1];
  }

  lemma ExampleStrip()
    ensures Join(StripAll(["  a", "    b", "  c"], 2), "\n") == "a\n  b\nc"
  {
    LeadingWsUnique("  a", 2);
    LeadingWsUnique("    b", 4);
    LeadingWsUnique("  c", 2);
    assert StripAll(["  a", "    b", "  c"], 2) == ["a", "  b", "c"];
  }

  /** The example of the design notes: a two-space common indentation is removed. */
  lemma FormatDisplayExample()
    ensures FormatDisplay("  a\n    b\n  c") == "a\n  b\nc"
  {
    ExampleLines();
    ExampleMinIndent();
    ExampleStrip();
  }
}
