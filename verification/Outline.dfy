/**
 The file outline of internal/git/outline.go: declarations found by one pattern per
 line, and for each the last line of its block, found by indentation (Python) or by
 balancing braces (every other language).

 The two block-end scanners are loops; `PythonEnd` and `BraceEnd` say what they return
 without mentioning the scan, and the nesting theorems are about those.
 */
module Outline {
  import opened Wrappers
  import opened Text

  /** A declaration pattern: the symbol name when the line matches. */
  datatype Rule = Rule(kind: string, name: string -> Option<string>)

  datatype Lang = Go | Rust | JavaScript | Python | Java

  datatype Symbol = Symbol(kind: string, name: string, lineStart: nat, lineEnd: nat, signature: string)

  // ---- Indentation ----

  predicate IsIndent(c: char) {
    c == ' ' || c == '\t'
  }

  /** Columns of a run of blanks, four for each tab. */
  function Columns(s: string): (n: nat) {
    if s == "" then 0 else Columns(s[..|s| - 1]) + if s[|s| - 1] == '\t' then 4 else 1
  }

  /** `n` is the width of the longest run of blanks the line starts with. */
  ghost predicate IsIndentOf(s: string, n: nat) {
    exists k | 0 <= k <= |s| ::
      && (forall i | 0 <= i < k :: IsIndent(s[i]))
      && (k < |s| ==> !IsIndent(s[k]))
      && n == Columns(s[..k])
  }

  method IndentOf(s: string) returns (n: nat)
    ensures n == Indent(s) && IsIndentOf(s, n)
  {
    n := 0;
    var k := 0;
    while k < |s|
      invariant k <= |s|
      invariant forall i | 0 <= i < k :: IsIndent(s[i])
      invariant n == Columns(s[..k])
    {
      assert s[..k + 1][..k] == s[..k];
      if s[k] == ' ' {
        n := n + 1;
      } else if s[k] == '\t' {
        n := n + 4;
      } else {
        break;
      }
      k := k + 1;
    }
    IndentRun(s, k);
  }

  function Indent(s: string): nat {
    if s == "" || !IsIndent(s[0]) then 0 else (if s[0] == '\t' then 4 else 1) + Indent(s[1..])
  }

  lemma {:induction false} ColumnsFront(s: string)
    requires s != ""
    ensures Columns(s) == (if s[0] == '\t' then 4 else 1) + Columns(s[1..])
  {
    if |s| == 1 {
      assert s[1..] == "" && s[..0] == "";
    } else {
      ColumnsFront(s[..|s| - 1]);
      assert s[..|s| - 1][1..] == s[1..][..|s| - 2];
    }
  }

  lemma {:induction false} IndentRun(s: string, k: nat)
    requires k <= |s| && (forall i | 0 <= i < k :: IsIndent(s[i])) && (k < |s| ==> !IsIndent(s[k]))
    ensures Indent(s) == Columns(s[..k])
  {
    if k > 0 {
      IndentRun(s[1..], k - 1);
      ColumnsFront(s[..k]);
      assert s[..k][1..] == s[1..][..k - 1];
    }
  }

  // ---- Where a block ends ----

  /** A line that ends a Python block declared at line `i`: not blank, and no deeper. */
  predicate Dedents(lines: seq<string>, i: nat, j: nat)
    requires i < |lines|
  {
    i < j < |lines| && !IsBlank(lines[j]) && Indent(lines[j]) <= Indent(lines[i])
  }

  ghost predicate PythonEnd(lines: seq<string>, i: nat, end: nat)
    requires i < |lines|
  {
    && i < end <= |lines|
    && (end == |lines| || Dedents(lines, i, end))
    && (forall j: nat | i < j < end :: !Dedents(lines, i, j))
  }

  /** Opening minus closing braces. */
  function Net(s: string): int {
    if s == "" then 0
    else Net(s[..|s| - 1]) + (if s[|s| - 1] == '{' then 1 else if s[|s| - 1] == '}' then -1 else 0)
  }

  /** The same over lines `i` up to but not including `j`. */
  function NetOf(lines: seq<string>, i: nat, j: nat): int
    requires i <= j <= |lines|
  {
    if i == j then 0 else NetOf(lines, i, j - 1) + Net(lines[j - 1])
  }

  /** Some line from `i` to `j` has an opening brace. */
  predicate Opens(lines: seq<string>, i: nat, j: nat) {
    exists k: nat | i <= k <= j && k < |lines| :: '{' in lines[k]
  }

  /** By line `j` the braces since `i` have opened and balanced. */
  predicate Closes(lines: seq<string>, i: nat, j: nat) {
    i <= j < |lines| && Opens(lines, i, j) && NetOf(lines, i, j + 1) <= 0
  }

  const LOOKAHEAD: nat := 41

  /** The scan from `i` finds a block: it opens in time, and closes. */
  ghost predicate HasBlock(lines: seq<string>, i: nat) {
    Opens(lines, i, i + LOOKAHEAD) && exists j: nat :: Closes(lines, i, j)
  }

  ghost predicate BraceEnd(lines: seq<string>, i: nat, end: nat)
    requires i < |lines|
  {
    if HasBlock(lines, i)
    then end > i && Closes(lines, i, end - 1) && forall j: nat | j < end - 1 :: !Closes(lines, i, j)
    else end == i + 1
  }

  ghost predicate BlockEndIs(lines: seq<string>, i: nat, python: bool, end: nat)
    requires i < |lines|
  {
    if python then PythonEnd(lines, i, end) else BraceEnd(lines, i, end)
  }

  /** The brace scan gives up unless it meets an opening brace by the 41st line after the declaration;
      one it meets by then and that is balanced later ends the range. */
  lemma BraceWindow(lines: seq<string>, i: nat, end: nat)
    requires i < |lines| && BraceEnd(lines, i, end)
    ensures (forall k: nat | i <= k <= i + 41 && k < |lines| :: '{' !in lines[k]) ==> end == i + 1
    ensures (exists k: nat | i <= k <= i + 41 && k < |lines| :: '{' in lines[k]) && (exists j: nat :: Closes(lines, i, j)) ==>
      end > i && Closes(lines, i, end - 1) && forall j: nat | j < end - 1 :: !Closes(lines, i, j)
  {}

  method BlockEnd(lines: seq<string>, i: nat, python: bool) returns (end: nat)
    requires i < |lines|
    ensures BlockEndIs(lines, i, python, end)
  {
    if python {
      end := IndentedEnd(lines, i);
    } else {
      end := BalancedEnd(lines, i);
    }
  }

  method IndentedEnd(lines: seq<string>, i: nat) returns (end: nat)
    requires i < |lines|
    ensures PythonEnd(lines, i, end)
  {
    hide IsIndentOf, Indent, IsBlank, TrimSpace;
    var baseIndent := IndentOf(lines[i]);
    var j := i + 1;
    while j < |lines|
      invariant i < j <= |lines|
      invariant forall k: nat | i < k < j :: !Dedents(lines, i, k)
    {
      if TrimSpace(lines[j]) != "" {
        var indent := IndentOf(lines[j]);
        if indent <= baseIndent {
          return j;
        }
      }
      j := j + 1;
    }
    end := |lines|;
  }

  method BalancedEnd(lines: seq<string>, i: nat) returns (end: nat)
    requires i < |lines|
    ensures BraceEnd(lines, i, end)
  {
    var depth, seen := 0, false;
    var j := i;
    while j < |lines|
      invariant i <= j <= |lines|
      invariant depth == NetOf(lines, i, j)
      invariant seen <==> j > i && Opens(lines, i, j - 1)
      invariant seen ==> Opens(lines, i, i + LOOKAHEAD)
      invariant !seen ==> j <= i + LOOKAHEAD
      invariant forall k: nat | k < j :: !Closes(lines, i, k)
    {
      OpensSnoc(lines, i, j);
      depth, seen := CountBraces(lines[j], depth, seen);
      if seen && depth <= 0 {
        assert Closes(lines, i, j);
        return j + 1;
      }
      if !seen && j > i + 40 {
        break;
      }
      j := j + 1;
    }
    end := i + 1;
  }

  method CountBraces(line: string, depth: int, seen: bool) returns (depth': int, seen': bool)
    ensures depth' == depth + Net(line)
    ensures seen' <==> seen || '{' in line
  {
    depth', seen' := depth, seen;
    var c := 0;
    while c < |line|
      invariant c <= |line|
      invariant depth' == depth + Net(line[..c])
      invariant seen' <==> seen || '{' in line[..c]
    {
      assert line[..c + 1][..c] == line[..c];
      if line[c] == '{' {
        depth' := depth' + 1;
        seen' := true;
      } else if line[c] == '}' {
        depth' := depth' - 1;
      }
      c := c + 1;
    }
    assert line[..c] == line;
  }

  lemma OpensSnoc(lines: seq<string>, i: nat, j: nat)
    requires i <= j < |lines|
    ensures Opens(lines, i, j) <==> (j > i && Opens(lines, i, j - 1)) || '{' in lines[j]
    ensures NetOf(lines, i, j + 1) == NetOf(lines, i, j) + Net(lines[j])
  {
    if Opens(lines, i, j) {
      var k: nat :| i <= k <= j && k < |lines| && '{' in lines[k];
      assert k == j || k <= j - 1;
    }
  }

  // ---- What the ends mean ----

  /** The end is determined by the text, and lies on or after the declaration. */
  lemma BlockEndUnique(lines: seq<string>, i: nat, python: bool, a: nat, b: nat)
    requires i < |lines| && BlockEndIs(lines, i, python, a) && BlockEndIs(lines, i, python, b)
    ensures a == b && i < a <= |lines|
  {
  }

  /** Two Python declarations: the later one is outside the earlier one's block, or inside with
      its whole block. */
  lemma PythonNesting(lines: seq<string>, i: nat, j: nat, iEnd: nat, jEnd: nat)
    requires i < j < |lines| && !IsBlank(lines[j])
    requires PythonEnd(lines, i, iEnd) && PythonEnd(lines, j, jEnd)
    ensures iEnd <= j || jEnd <= iEnd
  {
    if j < iEnd < |lines| {
      assert !Dedents(lines, i, j) && Dedents(lines, i, iEnd);
      assert Dedents(lines, j, iEnd);
    }
  }

  lemma {:induction false} NetSplit(lines: seq<string>, i: nat, j: nat, k: nat)
    requires i <= j <= k <= |lines|
    ensures NetOf(lines, i, k) == NetOf(lines, i, j) + NetOf(lines, j, k)
    decreases k
  {
    if j < k {
      NetSplit(lines, i, j, k - 1);
    }
  }

  /** A brace declaration inside a closed block stays inside it exactly when its scan finds no
      block of its own, or its braces have opened and balanced by the block's last line. */
  lemma BraceNestingIff(lines: seq<string>, i: nat, j: nat, iEnd: nat, jEnd: nat)
    requires i < j < iEnd <= |lines| && HasBlock(lines, i)
    requires BraceEnd(lines, i, iEnd) && BraceEnd(lines, j, jEnd)
    ensures jEnd <= iEnd <==> !HasBlock(lines, j) || Closes(lines, j, iEnd - 1)
  {
    if HasBlock(lines, j) {
      var c := jEnd - 1;
      if c < iEnd - 1 {
        assert Opens(lines, i, c) && !Closes(lines, i, c);
        NetSplit(lines, i, j, c + 1);
        NetSplit(lines, i, j, iEnd);
        assert Closes(lines, j, iEnd - 1);
      }
    }
  }

  /** Where the outer opening brace comes before the inner declaration, what has to be asked is
      only whether the inner scan meets a brace by the outer block's last line. */
  lemma BraceNestingAfterOpen(lines: seq<string>, i: nat, j: nat, iEnd: nat, jEnd: nat)
    requires i < j < iEnd <= |lines| && HasBlock(lines, i) && Opens(lines, i, j - 1)
    requires BraceEnd(lines, i, iEnd) && BraceEnd(lines, j, jEnd)
    ensures jEnd <= iEnd <==> !HasBlock(lines, j) || Opens(lines, j, iEnd - 1)
  {
    BraceNestingIff(lines, i, j, iEnd, jEnd);
    assert !Closes(lines, i, j - 1);
    NetSplit(lines, i, j, iEnd);
  }

  const FIVE_LINES: seq<string> := ["fn a() {", "fn b;", "}", "fn c {", "}"]

  /** A declaration without a body inside a block takes the next block after it for its own. */
  lemma BodilessEscapes()
    ensures BraceEnd(FIVE_LINES, 0, 3) && BraceEnd(FIVE_LINES, 1, 4)
  {
    hide NetOf;
    FiveNets();
    var lines := FIVE_LINES;
    assert '{' == lines[0][7] && '{' == lines[3][5];
    assert '{' in lines[0] && '{' !in lines[1] && '{' !in lines[2] && '{' in lines[3];
    assert Closes(lines, 0, 2) && Closes(lines, 1, 3);
  }

  lemma FiveNets()
    ensures NetOf(FIVE_LINES, 0, 1) == 1 && NetOf(FIVE_LINES, 0, 2) == 1 && NetOf(FIVE_LINES, 0, 3) == 0
    ensures NetOf(FIVE_LINES, 1, 2) == 0 && NetOf(FIVE_LINES, 1, 3) == -1 && NetOf(FIVE_LINES, 1, 4) == 0
  {
    hide Net;
    BracesAtEnd("fn a() ", '{');
    NoBraces("fn b;");
    BracesAtEnd("", '}');
    BracesAtEnd("fn c ", '{');
    assert "fn a() " + ['{'] == FIVE_LINES[0] && "fn b;" == FIVE_LINES[1] && "" + ['}'] == FIVE_LINES[2];
    assert "fn c " + ['{'] == FIVE_LINES[3];
    NetSplit(FIVE_LINES, 0, 1, 2);
    NetSplit(FIVE_LINES, 0, 2, 3);
    NetSplit(FIVE_LINES, 1, 2, 3);
    NetSplit(FIVE_LINES, 1, 3, 4);
    OneLine(FIVE_LINES, 0);
    OneLine(FIVE_LINES, 1);
    OneLine(FIVE_LINES, 2);
    OneLine(FIVE_LINES, 3);
  }

  lemma OneLine(lines: seq<string>, i: nat)
    requires i < |lines|
    ensures NetOf(lines, i, i + 1) == Net(lines[i])
  {
    assert NetOf(lines, i, i) == 0;
  }

  lemma NoBraces(s: string)
    requires '{' !in s && '}' !in s
    ensures Net(s) == 0
  {
    if s != "" {
      NoBraces(s[..|s| - 1]);
    }
  }

  lemma BracesAtEnd(s: string, c: char)
    requires '{' !in s && '}' !in s
    ensures Net(s + [c]) == if c == '{' then 1 else if c == '}' then -1 else 0
  {
    NoBraces(s);
    assert (s + [c])[..|s|] == s;
  }

  // ---- The outline ----

  /** The first rule, in order, that matches the line. */
  function FirstMatch(rules: seq<Rule>, line: string): Option<(string, string)> {
    if rules == [] then None
    else if rules[0].name(line).Some? then Some((rules[0].kind, rules[0].name(line).value))
    else FirstMatch(rules[1..], line)
  }

  ghost predicate IsEntry(rules: seq<Rule>, lines: seq<string>, python: bool, sym: Symbol) {
    && 1 <= sym.lineStart <= |lines|
    && FirstMatch(rules, lines[sym.lineStart - 1]) == Some((sym.kind, sym.name))
    && sym.signature == TrimSpace(lines[sym.lineStart - 1])
    && BlockEndIs(lines, sym.lineStart - 1, python, sym.lineEnd)
  }

  /** One entry for each of the first `n` lines that declares something, in order, and no other. */
  ghost predicate IsOutline(rules: seq<Rule>, lines: seq<string>, python: bool, n: nat, out: seq<Symbol>) {
    && (forall sym <- out :: IsEntry(rules, lines, python, sym) && sym.lineStart <= n)
    && InOrder(out)
    && Complete(rules, lines, n, out)
  }

  ghost predicate InOrder(out: seq<Symbol>) {
    forall a: nat, b: nat | a < b < |out| :: out[a].lineStart < out[b].lineStart
  }

  ghost predicate Complete(rules: seq<Rule>, lines: seq<string>, n: nat, out: seq<Symbol>) {
    forall i: nat | i < n && i < |lines| && FirstMatch(rules, lines[i]).Some? ::
      exists sym <- out :: sym.lineStart == i + 1
  }

  /** `blob` is what the store has for the file at the revision asked for. */
  method Outline(lang: Option<Lang>, rules: Lang -> seq<Rule>, blob: Result<string, string>)
    returns (r: Result<seq<Symbol>, string>)
    ensures lang.None? ==> r == Ok([])
    ensures lang.Some? && blob.Err? ==> r == Err(blob.error)
    ensures lang.Some? && blob.Ok? ==>
      var lines := Split(blob.value, '\n');
      r.Ok? && IsOutline(rules(lang.value), lines, lang.value.Python?, |lines|, r.value)
  {
    if lang.None? {
      return Ok([]);
    }
    if blob.Err? {
      return Err(blob.error);
    }
    var python := lang.value.Python?;
    var lines := Split(blob.value, '\n');
    var out: seq<Symbol> := [];
    for i := 0 to |lines|
      invariant IsOutline(rules(lang.value), lines, python, i, out)
    {
      var found := MatchLine(rules(lang.value), lines[i]);
      if found.Some? {
        var end := BlockEnd(lines, i, python);
        var sym := Symbol(found.value.0, found.value.1, i + 1, end, TrimSpace(lines[i]));
        OutlineSnoc(rules(lang.value), lines, python, i, out, sym);
        out := out + [sym];
      }
    }
    r := Ok(out);
  }

  method MatchLine(rules: seq<Rule>, line: string) returns (found: Option<(string, string)>)
    ensures found == FirstMatch(rules, line)
  {
    for k := 0 to |rules|
      invariant FirstMatch(rules, line) == FirstMatch(rules[k..], line)
    {
      var m := rules[k].name(line);
      if m.Some? {
        return Some((rules[k].kind, m.value));
      }
    }
    found := None;
  }

  lemma OutlineSnoc(rules: seq<Rule>, lines: seq<string>, python: bool, i: nat, out: seq<Symbol>, sym: Symbol)
    requires i < |lines| && IsOutline(rules, lines, python, i, out)
    requires IsEntry(rules, lines, python, sym) && sym.lineStart == i + 1
    ensures IsOutline(rules, lines, python, i + 1, out + [sym])
  {
    hide IsEntry, FirstMatch;
    var out' := out + [sym];
    assert out'[|out|] == sym;
    forall j: nat | j < i + 1 && FirstMatch(rules, lines[j]).Some?
      ensures exists t <- out' :: t.lineStart == j + 1
    {
      if j < i {
        var t :| t in out && t.lineStart == j + 1;
        assert t in out';
      } else {
        assert sym in out';
      }
    }
  }

  lemma EntryRange(rules: seq<Rule>, lines: seq<string>, python: bool, sym: Symbol)
    requires IsEntry(rules, lines, python, sym)
    ensures 1 <= sym.lineStart <= sym.lineEnd <= |lines|
  {
    BlockEndUnique(lines, sym.lineStart - 1, python, sym.lineEnd, sym.lineEnd);
  }

  /** Every range starts at its declaration and ends within the file; no line has two entries. */
  lemma RangesInFile(rules: seq<Rule>, lines: seq<string>, python: bool, out: seq<Symbol>)
    requires IsOutline(rules, lines, python, |lines|, out)
    ensures forall sym <- out :: 1 <= sym.lineStart <= sym.lineEnd <= |lines|
    ensures forall a: nat, b: nat | a < |out| && b < |out| && out[a].lineStart == out[b].lineStart :: a == b
    ensures |out| <= |lines|
  {
    hide IsEntry, Complete;
    forall sym <- out ensures 1 <= sym.lineStart <= sym.lineEnd <= |lines| {
      assert IsEntry(rules, lines, python, sym);
      EntryRange(rules, lines, python, sym);
    }
    if out != [] {
      assert out[0] in out && out[|out| - 1] in out;
      StartsGrow(out, |out| - 1);
    }
  }

  /** An entry's signature is its line without the blanks around it. */
  lemma SignatureTrimmed(rules: seq<Rule>, lines: seq<string>, python: bool, sym: Symbol)
    returns (before: string, after: string)
    requires IsEntry(rules, lines, python, sym)
    ensures 1 <= sym.lineStart <= |lines|
    ensures lines[sym.lineStart - 1] == before + sym.signature + after && IsBlank(before) && IsBlank(after)
    ensures sym.signature != "" ==> !IsSpace(sym.signature[0]) && !IsSpace(sym.signature[|sym.signature| - 1])
  {
    before, after := TrimmedWhole(lines[sym.lineStart - 1]);
  }

  lemma {:induction false} StartsGrow(out: seq<Symbol>, k: nat)
    requires k < |out| && out[0].lineStart >= 1
    requires InOrder(out)
    ensures out[k].lineStart >= k + 1
  {
    if k > 0 {
      StartsGrow(out, k - 1);
    }
  }

  /** The outline is the only one its specification admits. */
  lemma {:induction false} OutlineUnique(rules: seq<Rule>, lines: seq<string>, python: bool, n: nat,
                                         a: seq<Symbol>, b: seq<Symbol>)
    requires IsOutline(rules, lines, python, n, a) && IsOutline(rules, lines, python, n, b)
    requires n <= |lines|
    ensures a == b
  {
    forall sym | sym in a || sym in b
      ensures sym in a && sym in b
    {
      SameEntry(rules, lines, python, n, a, b, sym);
      SameEntry(rules, lines, python, n, b, a, sym);
    }
    SortedSame(a, b);
  }

  lemma SameEntry(rules: seq<Rule>, lines: seq<string>, python: bool, n: nat,
                  a: seq<Symbol>, b: seq<Symbol>, sym: Symbol)
    requires IsOutline(rules, lines, python, n, a) && IsOutline(rules, lines, python, n, b)
    requires n <= |lines|
    ensures sym in a ==> sym in b
  {
    hide Complete, IsEntry;
    if sym in a {
      assert IsEntry(rules, lines, python, sym);
      var t := ListedIn(rules, lines, python, n, b, sym);
      EntryUnique(rules, lines, python, sym, t);
    }
  }

  lemma EntryUnique(rules: seq<Rule>, lines: seq<string>, python: bool, sym: Symbol, t: Symbol)
    requires IsEntry(rules, lines, python, sym) && IsEntry(rules, lines, python, t)
    requires sym.lineStart == t.lineStart
    ensures sym == t
  {
    hide FirstMatch, TrimSpace, BlockEndIs;
    BlockEndUnique(lines, sym.lineStart - 1, python, sym.lineEnd, t.lineEnd);
  }

  lemma ListedIn(rules: seq<Rule>, lines: seq<string>, python: bool, n: nat, out: seq<Symbol>, sym: Symbol)
    returns (t: Symbol)
    requires IsOutline(rules, lines, python, n, out) && n <= |lines|
    requires IsEntry(rules, lines, python, sym) && sym.lineStart <= n
    ensures t in out && t.lineStart == sym.lineStart && IsEntry(rules, lines, python, t)
  {
    hide FirstMatch, TrimSpace, BlockEndIs;
    var i: nat := sym.lineStart - 1;
    assert FirstMatch(rules, lines[i]).Some?;
    t :| t in out && t.lineStart == i + 1;
  }

  lemma {:induction false} SortedSame(a: seq<Symbol>, b: seq<Symbol>)
    requires forall sym :: sym in a <==> sym in b
    requires InOrder(a) && InOrder(b)
    ensures a == b
  {
    assert |a| > 0 ==> a[0] in b;
    assert |b| > 0 ==> b[0] in a;
    if a != [] {
      assert a[0] == b[0];
      forall sym ensures sym in a[1..] <==> sym in b[1..] {
        assert sym in a[1..] <==> sym in a && sym != a[0];
        assert sym in b[1..] <==> sym in b && sym != b[0];
      }
      SortedSame(a[1..], b[1..]);
      assert a == [a[0]] + a[1..];
      assert b == [b[0]] + b[1..];
    }
  }

  /** No pattern matches a blank line: each asks for a keyword. */
  ghost predicate MatchesNeedText(rules: seq<Rule>) {
    forall k: nat, line: string | k < |rules| && rules[k].name(line).Some? :: !IsBlank(line)
  }

  // ---- The Python patterns ----

  /** \s of the pattern language. */
  predicate IsWhite(c: char) {
    c == ' ' || c == '\t' || c == '\n' || c == '\U{000C}' || c == '\r'
  }

  function SkipWhite(s: string): string {
    if s != "" && IsWhite(s[0]) then SkipWhite(s[1..]) else s
  }

  /** The rest of the text after a keyword and white space. */
  function After(s: string, keyword: string): Option<string> {
    if keyword <= s && |s| > |keyword| && IsWhite(s[|keyword|]) then Some(SkipWhite(s[|keyword|..])) else None
  }

  predicate IsNameChar(c: char) {
    'a' <= c <= 'z' || 'A' <= c <= 'Z' || IsDigit(c) || c == '_'
  }

  function NameChars(s: string): string {
    if s != "" && IsNameChar(s[0]) then [s[0]] + NameChars(s[1..]) else ""
  }

  function Name(s: string): Option<string> {
    if s != "" && IsNameChar(s[0]) && !IsDigit(s[0]) then Some(NameChars(s)) else None
  }

  function DefName(line: string): Option<string> {
    var s := SkipWhite(line);
    var t := if After(s, "async").Some? then After(s, "async").value else s;
    if After(t, "def").Some? then Name(After(t, "def").value) else None
  }

  function ClassName(line: string): Option<string> {
    var s := SkipWhite(line);
    if After(s, "class").Some? then Name(After(s, "class").value) else None
  }

  const PYTHON_RULES: seq<Rule> := [Rule("func", DefName), Rule("class", ClassName)]

  predicate AllWhite(s: string) {
    forall c <- s :: IsWhite(c)
  }

  lemma {:induction false} SkipWhiteThen(white: string, s: string)
    requires AllWhite(white) && (s != "" ==> !IsWhite(s[0]))
    ensures SkipWhite(white + s) == s
  {
    if white == "" {
      assert white + s == s;
    } else {
      assert white[0] in white;
      assert (white + s)[1..] == white[1..] + s;
      SkipWhiteThen(white[1..], s);
    }
  }

  lemma {:induction false} NameThen(name: string, rest: string)
    requires (forall c <- name :: IsNameChar(c)) && (rest != "" ==> !IsNameChar(rest[0]))
    ensures NameChars(name + rest) == name
  {
    if name == "" {
      assert name + rest == rest;
    } else {
      assert name[0] in name;
      assert (name + rest)[1..] == name[1..] + rest;
      NameThen(name[1..], rest);
      assert name == [name[0]] + name[1..];
    }
  }

  predicate IsIdentifier(name: string) {
    name != "" && !IsDigit(name[0]) && forall c <- name :: IsNameChar(c)
  }

  lemma AfterKeyword(keyword: string, white: string, s: string)
    requires white != "" && AllWhite(white) && (s != "" ==> !IsWhite(s[0]))
    ensures After(keyword + white + s, keyword) == Some(s)
  {
    var t := keyword + white + s;
    assert white[0] in white && t[|keyword|] == white[0];
    assert t[|keyword|..] == white + s;
    SkipWhiteThen(white, s);
  }

  /** What the Python patterns find: the identifier after `def`, `async def` or `class`, at any indent,
      listed as a function or a class. */
  lemma PythonFinds(indent: string, white: string, name: string, rest: string)
    requires AllWhite(indent) && AllWhite(white) && white != "" && IsIdentifier(name)
    requires rest != "" ==> !IsNameChar(rest[0])
    ensures FirstMatch(PYTHON_RULES, indent + ("def" + white + (name + rest))) == Some(("func", name))
    ensures FirstMatch(PYTHON_RULES, indent + ("async" + white + ("def" + white + (name + rest)))) == Some(("func", name))
    ensures FirstMatch(PYTHON_RULES, indent + ("class" + white + (name + rest))) == Some(("class", name))
  {
    hide SkipWhite, NameChars;
    var s := name + rest;
    var def, async, class' := "def" + white + s, "async" + white + ("def" + white + s), "class" + white + s;
    assert s[0] == name[0] && name[0] in name;
    assert def[0] == 'd' && async[0] == 'a' && class'[0] == 'c';
    NameThen(name, rest);
    AfterKeyword("def", white, s);
    AfterKeyword("class", white, s);
    AfterKeyword("async", white, def);
    SkipWhiteThen(indent, def);
    SkipWhiteThen(indent, async);
    SkipWhiteThen(indent, class');
    assert DefName(indent + class').None?;
    assert PYTHON_RULES[1..] == [Rule("class", ClassName)];
  }

  lemma {:induction false} SkipBlank(s: string)
    requires IsBlank(s)
    ensures IsBlank(SkipWhite(s))
  {
    if s != "" && IsWhite(s[0]) {
      SkipBlank(s[1..]);
    }
  }

  lemma NoKeywordInBlank(line: string)
    requires IsBlank(line)
    ensures DefName(line).None? && ClassName(line).None?
  {
    SkipBlank(line);
    var s := SkipWhite(line);
    assert s != "" ==> s[0] in s && IsSpace(s[0]);
  }

  lemma PythonMatchesNeedText()
    ensures MatchesNeedText(PYTHON_RULES)
  {
    forall k: nat, line: string | k < 2 && IsBlank(line) ensures PYTHON_RULES[k].name(line).None? {
      NoKeywordInBlank(line);
    }
  }

  /** In a Python outline any two ranges are nested or disjoint. */
  lemma PythonOutlineNested(rules: seq<Rule>, lines: seq<string>, x: Symbol, y: Symbol)
    requires IsEntry(rules, lines, true, x) && IsEntry(rules, lines, true, y)
    requires x.lineStart < y.lineStart && MatchesNeedText(rules)
    ensures x.lineEnd < y.lineStart || y.lineEnd <= x.lineEnd
  {
    hide FirstMatch, TrimSpace, IsBlank, PythonEnd;
    MatchNotBlank(rules, lines[y.lineStart - 1]);
    PythonNesting(lines, x.lineStart - 1, y.lineStart - 1, x.lineEnd, y.lineEnd);
  }

  lemma {:induction false} MatchNotBlank(rules: seq<Rule>, line: string)
    requires MatchesNeedText(rules)
    ensures FirstMatch(rules, line).Some? ==> !IsBlank(line)
  {
    if rules != [] {
      MatchNotBlank(rules[1..], line);
    }
  }

  /** In any other language, a declaration inside a closed block after its opening brace stays
      inside unless its scan finds a block of its own only past the end of the outer one. */
  lemma BraceOutlineNested(rules: seq<Rule>, lines: seq<string>, x: Symbol, y: Symbol)
    requires IsEntry(rules, lines, false, x) && IsEntry(rules, lines, false, y)
    requires x.lineStart < y.lineStart <= x.lineEnd
    requires HasBlock(lines, x.lineStart - 1) && Opens(lines, x.lineStart - 1, y.lineStart - 2)
    ensures y.lineEnd <= x.lineEnd <==>
      !HasBlock(lines, y.lineStart - 1) || Opens(lines, y.lineStart - 1, x.lineEnd - 1)
  {
    hide FirstMatch, TrimSpace, IsBlank, BraceEnd, HasBlock, Opens;
    EntryRange(rules, lines, false, x);
    BraceNestingAfterOpen(lines, x.lineStart - 1, y.lineStart - 1, x.lineEnd, y.lineEnd);
  }
}
