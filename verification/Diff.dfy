/**
 parseDiff of internal/git/diff.go: the line parser for git's unified diffs.
 `ParseDiff` is the loop of the source over its mutable file, hunk and counters;
 `Parse` is the same machine as a fold, and `ParsedShape` says what every parsed
 diff looks like, whatever text went in.
 */
module Diff {
  import opened Wrappers
  import opened Text

  datatype Kind = Ctx | Add | Del

  /** `left` and `right` are the two gutter strings, " " when not applicable. */
  datatype DiffLine = DiffLine(kind: Kind, left: string, right: string, text: string)

  datatype Hunk = Hunk(header: string, lines: seq<DiffLine>)

  datatype FileDiff = FileDiff(path: string, additions: nat, deletions: nat, hunks: seq<Hunk>)

  // ---- Go's int ----

  function Increment(n: int): int {
    if n == MAX_INT then -MAX_INT - 1 else n + 1
  }

  function Advance(n: int, k: nat): int {
    if k == 0 then n else Increment(Advance(n, k - 1))
  }

  lemma {:induction false} AdvanceExact(n: int, k: nat)
    requires n + k <= MAX_INT
    ensures Advance(n, k) == n + k
  {
    if k > 0 {
      AdvanceExact(n, k - 1);
    }
  }

  /** The counters are the machine's: they wrap round past the largest int. */
  lemma {:induction false} AdvanceWraps(n: int, k: nat)
    requires -0x8000_0000_0000_0000 <= n < 0x8000_0000_0000_0000
    ensures Advance(n, k) == (n + k + 0x8000_0000_0000_0000) % 0x1_0000_0000_0000_0000 - 0x8000_0000_0000_0000
  {
    if k > 0 {
      AdvanceWraps(n, k - 1);
    }
  }

  /** strconv.Atoi on digits: the value, or the largest int when it does not fit. */
  function Atoi(digits: string): int
    requires AllDigits(digits)
  {
    if Value(digits) <= MAX_INT then Value(digits) else MAX_INT
  }

  // ---- The hunk header pattern ----

  function DigitCount(s: string): (n: nat)
    ensures n <= |s| && AllDigits(s[..n]) && (n == |s| || !IsDigit(s[n]))
  {
    if s == "" || !IsDigit(s[0]) then 0
    else
      var n := 1 + DigitCount(s[1..]);
      assert s[..n] == [s[0]] + s[1..][..n - 1];
      n
  }

  datatype Range = Range(start: string, count: Option<string>, rest: string)

  /** `(\d+)(?:,(\d+))?` and the text after it. */
  function MatchRange(s: string): (m: Option<Range>)
    ensures m.Some? ==> AllDigits(m.value.start) && (m.value.count.Some? ==> AllDigits(m.value.count.value))
  {
    var n := DigitCount(s);
    if n == 0 then None
    else if n < |s| && s[n] == ',' && DigitCount(s[n + 1..]) > 0 then
      var k := DigitCount(s[n + 1..]);
      Some(Range(s[..n], Some(s[n + 1..][..k]), s[n + 1..][k..]))
    else Some(Range(s[..n], None, s[n..]))
  }

  datatype Header = Header(left: Range, right: Range)

  /** hunkHeaderRe: `^@@ -(\d+)(?:,(\d+))? \+(\d+)(?:,(\d+))? @@`. */
  function MatchHeader(ln: string): (m: Option<Header>)
    ensures m.Some? ==> AllDigits(m.value.left.start) && AllDigits(m.value.right.start)
    ensures m.Some? ==> HasPrefix(ln, "@@")
  {
    if !HasPrefix(ln, "@@ -") then None
    else match MatchRange(ln[4..])
      case None => None
      case Some(l) =>
        if !HasPrefix(l.rest, " +") then None
        else match MatchRange(l.rest[2..])
          case None => None
          case Some(r) => if HasPrefix(r.rest, " @@") then Some(Header(l, r)) else None
  }

  function LeftStart(h: Header): int
    requires AllDigits(h.left.start)
  {
    Atoi(h.left.start)
  }

  function RightStart(h: Header): int
    requires AllDigits(h.right.start)
  {
    Atoi(h.right.start)
  }

  /** A start that does not fit an int is read as the largest one. */
  lemma StartsSaturate(h: Header)
    requires AllDigits(h.left.start) && AllDigits(h.right.start)
    ensures LeftStart(h) ==
      if Value(h.left.start) < 0x8000_0000_0000_0000 then Value(h.left.start) else 0x7FFF_FFFF_FFFF_FFFF
    ensures RightStart(h) ==
      if Value(h.right.start) < 0x8000_0000_0000_0000 then Value(h.right.start) else 0x7FFF_FFFF_FFFF_FFFF
  {}

  // ---- The parser ----

  datatype Parser = Parser(files: seq<FileDiff>, cur: Option<FileDiff>, left: int, right: int)

  const FRESH := FileDiff("", 0, 0, [])

  function Flush(p: Parser): seq<FileDiff> {
    if p.cur.Some? then p.files + [p.cur.value] else p.files
  }

  function MakeLine(kind: Kind, left: int, right: int, text: string): DiffLine {
    match kind
    case Ctx => DiffLine(Ctx, Itoa(left), Itoa(right), text)
    case Add => DiffLine(Add, " ", Itoa(right), text)
    case Del => DiffLine(Del, Itoa(left), " ", text)
  }

  function KindOf(c: char): Kind
    requires c == ' ' || c == '+' || c == '-'
  {
    if c == '+' then Add else if c == '-' then Del else Ctx
  }

  predicate IsBody(ln: string) {
    ln != "" && (ln[0] == ' ' || ln[0] == '+' || ln[0] == '-')
  }

  function AddLine(h: Hunk, ln: DiffLine): Hunk {
    h.(lines := h.lines + [ln])
  }

  function WithLine(fd: FileDiff, ln: DiffLine): FileDiff
    requires fd.hunks != []
  {
    fd.(additions := fd.additions + (if ln.kind.Add? then 1 else 0),
        deletions := fd.deletions + (if ln.kind.Del? then 1 else 0),
        hunks := fd.hunks[|fd.hunks| - 1 := AddLine(fd.hunks[|fd.hunks| - 1], ln)])
  }

  /** What "+++ " and "--- " lines do to the path. */
  function NewSidePath(path: string, ln: string): string {
    var p := TrimPrefix(TrimPrefix(ln, "+++ "), "b/");
    if p != "/dev/null" then p else path
  }

  function OldSidePath(path: string, ln: string): string {
    var p := TrimPrefix(TrimPrefix(ln, "--- "), "a/");
    if path == "" && p != "/dev/null" then p else path
  }

  /** One turn of the loop. */
  function Step(p: Parser, ln: string): Parser {
    if HasPrefix(ln, "diff --git ") then
      p.(files := Flush(p), cur := Some(FRESH))
    else if p.cur.None? then p
    else
      var fd := p.cur.value;
      if HasPrefix(ln, "+++ ") then p.(cur := Some(fd.(path := NewSidePath(fd.path, ln))))
      else if HasPrefix(ln, "--- ") then p.(cur := Some(fd.(path := OldSidePath(fd.path, ln))))
      else if HasPrefix(ln, "@@") then
        match MatchHeader(ln)
        case None => p
        case Some(m) => Parser(p.files, Some(fd.(hunks := fd.hunks + [Hunk(ln, [])])), LeftStart(m), RightStart(m))
      else if fd.hunks != [] && IsBody(ln) then
        var kind := KindOf(ln[0]);
        Parser(p.files, Some(WithLine(fd, MakeLine(kind, p.left, p.right, ln[1..]))),
               if kind.Add? then p.left else Increment(p.left),
               if kind.Del? then p.right else Increment(p.right))
      else p
  }

  /** A "+++ " line names the file whatever it was called before, a "--- " line only if it has no name
      yet; /dev/null is no name. */
  lemma FileNameLines(p: Parser, x: string)
    requires p.cur.Some?
    ensures
      var fd, name := p.cur.value, if "b/" <= x then x[2..] else x;
      Step(p, "+++ " + x) == p.(cur := Some(fd.(path := if name == "/dev/null" then fd.path else name)))
    ensures
      var fd, name := p.cur.value, if "a/" <= x then x[2..] else x;
      Step(p, "--- " + x) == p.(cur := Some(fd.(path := if fd.path != "" || name == "/dev/null" then fd.path else name)))
  {
    hide Step, NewSidePath, OldSidePath;
    SideLines(p, x);
    SidePaths(p.cur.value.path, x);
  }

  lemma SideLines(p: Parser, x: string)
    requires p.cur.Some?
    ensures
      var fd := p.cur.value;
      && Step(p, "+++ " + x) == p.(cur := Some(fd.(path := NewSidePath(fd.path, "+++ " + x))))
      && Step(p, "--- " + x) == p.(cur := Some(fd.(path := OldSidePath(fd.path, "--- " + x))))
  {
    hide MatchHeader, MakeLine, WithLine, NewSidePath, OldSidePath, IsBody, KindOf;
    assert ("+++ " + x)[0] == '+' && ("--- " + x)[0] == '-';
  }

  lemma SidePaths(path: string, x: string)
    ensures
      var name := if "b/" <= x then x[2..] else x;
      NewSidePath(path, "+++ " + x) == if name == "/dev/null" then path else name
    ensures
      var name := if "a/" <= x then x[2..] else x;
      OldSidePath(path, "--- " + x) == if path != "" || name == "/dev/null" then path else name
  {
    assert ("+++ " + x)[4..] == x && ("--- " + x)[4..] == x;
  }

  function Fold(p: Parser, lines: seq<string>): Parser
    decreases |lines|
  {
    if lines == [] then p else Fold(Step(p, lines[0]), lines[1..])
  }

  const START := Parser([], None, 0, 0)

  function Parse(diff: string): seq<FileDiff> {
    Flush(Fold(START, Split(diff, '\n')))
  }

  lemma {:induction false} FoldConcat(p: Parser, a: seq<string>, b: seq<string>)
    ensures Fold(p, a + b) == Fold(Fold(p, a), b)
    decreases |a|
  {
    if a == [] {
      assert a + b == b;
    } else {
      assert (a + b)[1..] == a[1..] + b;
      FoldConcat(Step(p, a[0]), a[1..], b);
    }
  }

  lemma FoldOne(p: Parser, ln: string)
    ensures Fold(p, [ln]) == Step(p, ln)
  {
    assert [ln][1..] == [];
  }

  method ParseDiff(diff: string) returns (files: seq<FileDiff>)
    ensures files == Parse(diff)
  {
    hide Split, MatchHeader, Atoi, Itoa, Increment, TrimPrefix;
    files := [];
    var cur: Option<FileDiff> := None;
    var leftNum, rightNum := 0, 0;
    var lines := Split(diff, '\n');
    for i := 0 to |lines|
      invariant Fold(Parser(files, cur, leftNum, rightNum), lines[i..]) == Fold(START, lines)
    {
      var ln := lines[i];
      assert lines[i..][1..] == lines[i + 1..];
      if HasPrefix(ln, "diff --git ") {
        if cur.Some? {
          files := files + [cur.value];
        }
        cur := Some(FileDiff("", 0, 0, []));
      } else if HasPrefix(ln, "+++ ") {
        if cur.Some? {
          var p := TrimPrefix(ln, "+++ ");
          p := TrimPrefix(p, "b/");
          if p != "/dev/null" {
            cur := Some(cur.value.(path := p));
          }
        }
      } else if HasPrefix(ln, "--- ") {
        if cur.Some? && cur.value.path == "" {
          var p := TrimPrefix(ln, "--- ");
          p := TrimPrefix(p, "a/");
          if p != "/dev/null" {
            cur := Some(cur.value.(path := p));
          }
        }
      } else if HasPrefix(ln, "@@") {
        if cur.None? {
          continue;
        }
        var m := MatchHeader(ln);
        if m.None? {
          continue;
        }
        leftNum := Atoi(m.value.left.start);
        rightNum := Atoi(m.value.right.start);
        cur := Some(cur.value.(hunks := cur.value.hunks + [Hunk(ln, [])]));
      } else if cur.Some? && |cur.value.hunks| > 0 && (HasPrefix(ln, " ") || HasPrefix(ln, "+") || HasPrefix(ln, "-")) {
        var fd := cur.value;
        var last := |fd.hunks| - 1;
        var h := fd.hunks[last];
        var text := ln[1..];
        if ln[0] == ' ' {
          h := h.(lines := h.lines + [DiffLine(Ctx, Itoa(leftNum), Itoa(rightNum), text)]);
          leftNum := Increment(leftNum);
          rightNum := Increment(rightNum);
        } else if ln[0] == '+' {
          h := h.(lines := h.lines + [DiffLine(Add, " ", Itoa(rightNum), text)]);
          rightNum := Increment(rightNum);
          fd := fd.(additions := fd.additions + 1);
        } else {
          h := h.(lines := h.lines + [DiffLine(Del, Itoa(leftNum), " ", text)]);
          leftNum := Increment(leftNum);
          fd := fd.(deletions := fd.deletions + 1);
        }
        cur := Some(fd.(hunks := fd.hunks[last := h]));
      }
    }
    if cur.Some? {
      files := files + [cur.value];
    }
  }

  // ---- The shape of every parsed diff ----

  function Count(lines: seq<DiffLine>, kind: Kind): nat {
    if lines == [] then 0
    else Count(lines[..|lines| - 1], kind) + (if lines[|lines| - 1].kind == kind then 1 else 0)
  }

  /** How many lines of the old file (of the new file) the lines cover. */
  function LeftCount(lines: seq<DiffLine>): nat {
    Count(lines, Ctx) + Count(lines, Del)
  }

  function RightCount(lines: seq<DiffLine>): nat {
    Count(lines, Ctx) + Count(lines, Add)
  }

  function CountAll(hunks: seq<Hunk>, kind: Kind): nat {
    if hunks == [] then 0 else CountAll(hunks[..|hunks| - 1], kind) + Count(hunks[|hunks| - 1].lines, kind)
  }

  /** Printed again, the line is read as a body line and nothing else. */
  ghost predicate TextOk(ln: DiffLine) {
    && '\n' !in ln.text
    && (ln.kind.Add? ==> !HasPrefix(ln.text, "++ "))
    && (ln.kind.Del? ==> !HasPrefix(ln.text, "-- "))
  }

  /** Line `k` carries the header's start numbers advanced by what precedes it. */
  ghost predicate NumberedAt(lines: seq<DiffLine>, left: int, right: int, k: nat)
    requires k < |lines|
  {
    lines[k] == MakeLine(lines[k].kind, Advance(left, LeftCount(lines[..k])),
                         Advance(right, RightCount(lines[..k])), lines[k].text)
  }

  ghost predicate HunkShape(h: Hunk) {
    && '\n' !in h.header
    && MatchHeader(h.header).Some?
    && var m := MatchHeader(h.header).value;
    && forall k: nat | k < |h.lines| :: NumberedAt(h.lines, LeftStart(m), RightStart(m), k) && TextOk(h.lines[k])
  }

  ghost predicate FileShape(fd: FileDiff) {
    && '\n' !in fd.path
    && (forall h <- fd.hunks :: HunkShape(h))
    && fd.additions == CountAll(fd.hunks, Add)
    && fd.deletions == CountAll(fd.hunks, Del)
  }

  /** The counters stand after the last line of the hunk. */
  ghost predicate CountersAfter(h: Hunk, left: int, right: int) {
    && MatchHeader(h.header).Some?
    && left == Advance(LeftStart(MatchHeader(h.header).value), LeftCount(h.lines))
    && right == Advance(RightStart(MatchHeader(h.header).value), RightCount(h.lines))
  }

  function LastHunk(fd: FileDiff): Hunk
    requires fd.hunks != []
  {
    fd.hunks[|fd.hunks| - 1]
  }

  ghost predicate ParserShape(p: Parser) {
    && (forall fd <- p.files :: FileShape(fd))
    && (p.cur.Some? ==> FileShape(p.cur.value))
    && (p.cur.Some? && p.cur.value.hunks != [] ==> CountersAfter(LastHunk(p.cur.value), p.left, p.right))
  }

  lemma CountSnoc(lines: seq<DiffLine>, ln: DiffLine, kind: Kind)
    ensures Count(lines + [ln], kind) == Count(lines, kind) + if ln.kind == kind then 1 else 0
  {
    assert (lines + [ln])[..|lines|] == lines;
  }

  lemma CountAllSnoc(hunks: seq<Hunk>, h: Hunk, kind: Kind)
    ensures CountAll(hunks + [h], kind) == CountAll(hunks, kind) + Count(h.lines, kind)
  {
    assert (hunks + [h])[..|hunks|] == hunks;
  }

  lemma CountAllReplaceLast(hunks: seq<Hunk>, h: Hunk, kind: Kind)
    requires hunks != []
    ensures CountAll(hunks[|hunks| - 1 := h], kind)
         == CountAll(hunks, kind) - Count(hunks[|hunks| - 1].lines, kind) + Count(h.lines, kind)
  {
    assert hunks[|hunks| - 1 := h][..|hunks| - 1] == hunks[..|hunks| - 1];
  }

  lemma LineKeepsHunkShape(h: Hunk, kind: Kind, text: string)
    requires HunkShape(h)
    requires '\n' !in text
    requires kind.Add? ==> !HasPrefix(text, "++ ")
    requires kind.Del? ==> !HasPrefix(text, "-- ")
    ensures
      var m := MatchHeader(h.header).value;
      var ln := MakeLine(kind, Advance(LeftStart(m), LeftCount(h.lines)), Advance(RightStart(m), RightCount(h.lines)), text);
      HunkShape(AddLine(h, ln))
  {
    hide MatchHeader, Advance, Count;
    var m := MatchHeader(h.header).value;
    var ln := MakeLine(kind, Advance(LeftStart(m), LeftCount(h.lines)), Advance(RightStart(m), RightCount(h.lines)), text);
    var h' := AddLine(h, ln);
    forall k: nat | k < |h'.lines|
      ensures NumberedAt(h'.lines, LeftStart(m), RightStart(m), k) && TextOk(h'.lines[k])
    {
      if k < |h.lines| {
        assert NumberedAt(h.lines, LeftStart(m), RightStart(m), k);
        assert h'.lines[..k] == h.lines[..k];
      } else {
        assert h'.lines[..k] == h.lines;
      }
    }
  }

  lemma LineMovesCounters(h: Hunk, left: int, right: int, kind: Kind, text: string)
    requires CountersAfter(h, left, right)
    ensures CountersAfter(AddLine(h, MakeLine(kind, left, right, text)),
                          if kind.Add? then left else Increment(left),
                          if kind.Del? then right else Increment(right))
  {
    var dl := MakeLine(kind, left, right, text);
    SideCountsSnoc(h.lines, dl);
    var m := MatchHeader(h.header).value;
    assert Advance(LeftStart(m), LeftCount(h.lines) + 1) == Increment(left);
    assert Advance(RightStart(m), RightCount(h.lines) + 1) == Increment(right);
  }

  lemma SideCountsSnoc(lines: seq<DiffLine>, dl: DiffLine)
    ensures LeftCount(lines + [dl]) == LeftCount(lines) + if dl.kind.Add? then 0 else 1
    ensures RightCount(lines + [dl]) == RightCount(lines) + if dl.kind.Del? then 0 else 1
  {
    CountSnoc(lines, dl, Ctx);
    CountSnoc(lines, dl, Add);
    CountSnoc(lines, dl, Del);
  }

  lemma LineKeepsFileShape(fd: FileDiff, dl: DiffLine)
    requires FileShape(fd) && fd.hunks != []
    requires HunkShape(AddLine(LastHunk(fd), dl))
    ensures FileShape(WithLine(fd, dl))
  {
    hide HunkShape;
    var h := LastHunk(fd);
    var h' := AddLine(h, dl);
    CountSnoc(h.lines, dl, Add);
    CountSnoc(h.lines, dl, Del);
    CountAllReplaceLast(fd.hunks, h', Add);
    CountAllReplaceLast(fd.hunks, h', Del);
    forall x | x in WithLine(fd, dl).hunks ensures HunkShape(x) {
      assert x == h' || x in fd.hunks;
    }
  }

  lemma BodyStepKeepsShape(p: Parser, kind: Kind, text: string)
    requires ParserShape(p) && p.cur.Some? && p.cur.value.hunks != []
    requires '\n' !in text
    requires kind.Add? ==> !HasPrefix(text, "++ ")
    requires kind.Del? ==> !HasPrefix(text, "-- ")
    ensures ParserShape(Parser(p.files, Some(WithLine(p.cur.value, MakeLine(kind, p.left, p.right, text))),
                               if kind.Add? then p.left else Increment(p.left),
                               if kind.Del? then p.right else Increment(p.right)))
  {
    hide HunkShape, MakeLine, Count, CountAll;
    var h := LastHunk(p.cur.value);
    assert h in p.cur.value.hunks;
    LineKeepsHunkShape(h, kind, text);
    LineMovesCounters(h, p.left, p.right, kind, text);
    LineKeepsFileShape(p.cur.value, MakeLine(kind, p.left, p.right, text));
  }

  lemma HeaderStepKeepsShape(fd: FileDiff, ln: string)
    requires FileShape(fd) && '\n' !in ln && MatchHeader(ln).Some?
    ensures FileShape(fd.(hunks := fd.hunks + [Hunk(ln, [])]))
    ensures CountersAfter(Hunk(ln, []), LeftStart(MatchHeader(ln).value), RightStart(MatchHeader(ln).value))
  {
    CountAllSnoc(fd.hunks, Hunk(ln, []), Add);
    CountAllSnoc(fd.hunks, Hunk(ln, []), Del);
    assert HunkShape(Hunk(ln, []));
  }

  /** A body line that is not a "+++ " or "--- " line has a harmless text. */
  lemma BodyText(ln: string)
    requires IsBody(ln) && !HasPrefix(ln, "+++ ") && !HasPrefix(ln, "--- ")
    ensures KindOf(ln[0]).Add? ==> !HasPrefix(ln[1..], "++ ")
    ensures KindOf(ln[0]).Del? ==> !HasPrefix(ln[1..], "-- ")
  {
    assert ln == [ln[0]] + ln[1..];
  }

  lemma PathStepKeepsShape(fd: FileDiff, ln: string)
    requires FileShape(fd) && '\n' !in ln
    ensures FileShape(fd.(path := NewSidePath(fd.path, ln)))
    ensures FileShape(fd.(path := OldSidePath(fd.path, ln)))
  {}

  lemma FreshShape()
    ensures FileShape(FRESH)
  {}

  lemma StepKeepsShape(p: Parser, ln: string)
    requires ParserShape(p) && '\n' !in ln
    ensures ParserShape(Step(p, ln))
  {
    hide FileShape, MatchHeader, NewSidePath, OldSidePath, MakeLine, WithLine;
    if HasPrefix(ln, "diff --git ") {
      FreshShape();
    } else if p.cur.Some? {
      var fd := p.cur.value;
      if HasPrefix(ln, "+++ ") || HasPrefix(ln, "--- ") {
        PathStepKeepsShape(fd, ln);
        assert Step(p, ln).cur.value.hunks == fd.hunks;
      } else if HasPrefix(ln, "@@") {
        if MatchHeader(ln).Some? {
          HeaderStepKeepsShape(fd, ln);
        }
      } else if fd.hunks != [] && IsBody(ln) {
        var kind := KindOf(ln[0]);
        BodyText(ln);
        BodyStepKeepsShape(p, kind, ln[1..]);
      }
    }
  }

  lemma {:induction false} FoldKeepsShape(p: Parser, lines: seq<string>)
    requires ParserShape(p) && NoNewline(lines)
    ensures ParserShape(Fold(p, lines))
    decreases |lines|
  {
    if lines != [] {
      assert lines[0] in lines;
      StepKeepsShape(p, lines[0]);
      FoldKeepsShape(Step(p, lines[0]), lines[1..]);
    }
  }

  /** For every input text: in every hunk the left numbers run consecutively from the
      header's left start and the right numbers from its right start, and the file's
      additions and deletions are its added and deleted lines. */
  lemma ParsedShape(diff: string)
    ensures forall fd <- Parse(diff) :: FileShape(fd)
  {
    JoinSplit(diff, '\n');
    FoldKeepsShape(START, Split(diff, '\n'));
  }
}
