/**
 The two printers of parsed diffs: `renderDiff` of internal/api/ai.go, which also
 truncates, and the inline copy in `process` of internal/scan/worker.go. The main
 result is that a printed diff is read back as it was, for every input text.
 */
module DiffRender {
  import opened Wrappers
  import opened Text
  import opened Diff

  // ---- What is printed ----

  function Mark(kind: Kind): char {
    match kind case Ctx => ' ' case Add => '+' case Del => '-'
  }

  function BodyLines(lines: seq<DiffLine>): seq<string> {
    if lines == [] then [] else [[Mark(lines[0].kind)] + lines[0].text] + BodyLines(lines[1..])
  }

  function HunkLines(hunks: seq<Hunk>): seq<string> {
    if hunks == [] then [] else [hunks[0].header] + BodyLines(hunks[0].lines) + HunkLines(hunks[1..])
  }

  function TitleLine(fd: FileDiff): string {
    "diff --git a/" + fd.path + " b/" + fd.path
  }

  function FileLines(files: seq<FileDiff>): seq<string> {
    if files == [] then [] else [TitleLine(files[0])] + HunkLines(files[0].hunks) + FileLines(files[1..])
  }

  function Render(files: seq<FileDiff>): string {
    Unlines(FileLines(files))
  }

  const DEFAULT_CAP: int := 120 * 1024

  const TRUNCATED := "\n\n[diff truncated]\n"

  /** The text as it leaves renderDiff: whole, or cut at the cap and marked. */
  ghost predicate CappedAt(out: string, full: string, maxBytes: int) {
    var cap := if maxBytes <= 0 then DEFAULT_CAP else maxBytes;
    if |full| <= cap then out == full else out == full[..cap] + TRUNCATED
  }

  lemma BodyLinesCons(lines: seq<DiffLine>, k: nat)
    requires k < |lines|
    ensures Unlines(BodyLines(lines[k..])) ==
      [Mark(lines[k].kind)] + lines[k].text + "\n" + Unlines(BodyLines(lines[k + 1..]))
  {
    assert lines[k..][1..] == lines[k + 1..];
    assert BodyLines(lines[k..])[1..] == BodyLines(lines[k + 1..]);
  }

  lemma HunkLinesCons(hunks: seq<Hunk>, k: nat)
    requires k < |hunks|
    ensures Unlines(HunkLines(hunks[k..])) ==
      hunks[k].header + "\n" + Unlines(BodyLines(hunks[k].lines)) + Unlines(HunkLines(hunks[k + 1..]))
  {
    assert hunks[k..][1..] == hunks[k + 1..];
    var body, rest := BodyLines(hunks[k].lines), HunkLines(hunks[k + 1..]);
    assert HunkLines(hunks[k..]) == [hunks[k].header] + (body + rest);
    UnlinesConcat(body, rest);
    assert HunkLines(hunks[k..])[1..] == body + rest;
  }

  lemma FileLinesCons(files: seq<FileDiff>, k: nat)
    requires k < |files|
    ensures Unlines(FileLines(files[k..])) ==
      TitleLine(files[k]) + "\n" + Unlines(HunkLines(files[k].hunks)) + Unlines(FileLines(files[k + 1..]))
  {
    assert files[k..][1..] == files[k + 1..];
    var body, rest := HunkLines(files[k].hunks), FileLines(files[k + 1..]);
    assert FileLines(files[k..]) == [TitleLine(files[k])] + (body + rest);
    UnlinesConcat(body, rest);
    assert FileLines(files[k..])[1..] == body + rest;
  }

  lemma NothingPrinted()
    ensures Unlines(BodyLines([])) == Unlines(HunkLines([])) == Unlines(FileLines([])) == ""
  {}

  /** The nested loops both printers share, over a growing buffer. */
  method WriteFiles(files: seq<FileDiff>) returns (b: string)
    ensures b == Render(files)
  {
    hide Unlines, BodyLines, HunkLines, FileLines;
    NothingPrinted();
    b := "";
    assert files[0..] == files;
    for i := 0 to |files|
      invariant b + Unlines(FileLines(files[i..])) == Render(files)
    {
      FileLinesCons(files, i);
      var fd := files[i];
      ghost var fileEnd := b + (TitleLine(fd) + "\n" + Unlines(HunkLines(fd.hunks)));
      b := b + ("diff --git a/" + fd.path + " b/" + fd.path + "\n");
      assert fd.hunks[0..] == fd.hunks;
      for j := 0 to |fd.hunks|
        invariant b + Unlines(HunkLines(fd.hunks[j..])) == fileEnd
      {
        HunkLinesCons(fd.hunks, j);
        var h := fd.hunks[j];
        ghost var hunkEnd := b + (h.header + "\n" + Unlines(BodyLines(h.lines)));
        b := b + (h.header + "\n");
        assert h.lines[0..] == h.lines;
        for k := 0 to |h.lines|
          invariant b + Unlines(BodyLines(h.lines[k..])) == hunkEnd
        {
          BodyLinesCons(h.lines, k);
          var ln := h.lines[k];
          var p := if ln.kind == Add then "+" else if ln.kind == Del then "-" else " ";
          assert [Mark(ln.kind)] == p;
          b := b + (p + ln.text + "\n");
        }
        assert h.lines[|h.lines|..] == [];
        assert b == hunkEnd;
      }
      assert fd.hunks[|fd.hunks|..] == [];
      assert b == fileEnd;
    }
    assert files[|files|..] == [];
  }

  /** renderDiff: print, then cut at the byte cap (zero or less means the default cap). */
  method RenderDiff(files: seq<FileDiff>, maxBytes: int) returns (out: string)
    ensures CappedAt(out, Render(files), maxBytes)
    ensures
      var cap, full := if maxBytes > 0 then maxBytes else 122880, Render(files);
      out == if |full| > cap then full[..cap] + "\n\n[diff truncated]\n" else full
  {
    var cap := if maxBytes <= 0 then DEFAULT_CAP else maxBytes;
    out := WriteFiles(files);
    if |out| > cap {
      out := out[..cap] + "\n\n[diff truncated]\n";
    }
  }

  // ---- Reading it back ----

  function ClearPath(fd: FileDiff): FileDiff {
    fd.(path := "")
  }

  function ClearPaths(files: seq<FileDiff>): seq<FileDiff> {
    seq(|files|, i requires 0 <= i < |files| => ClearPath(files[i]))
  }

  function CountUpTo(hunks: seq<Hunk>, j: nat, lines: seq<DiffLine>, kind: Kind): nat
    requires j <= |hunks|
  {
    CountAll(hunks[..j], kind) + Count(lines, kind)
  }

  /** The file read so far: the first `j` hunks, and of the next one the first `k` lines. */
  function Partial(fd: FileDiff, j: nat, k: nat): FileDiff
    requires j < |fd.hunks| && k <= |fd.hunks[j].lines|
  {
    var lines := fd.hunks[j].lines[..k];
    FileDiff("", CountUpTo(fd.hunks, j, lines, Add), CountUpTo(fd.hunks, j, lines, Del),
             fd.hunks[..j] + [Hunk(fd.hunks[j].header, lines)])
  }

  function HeaderOf(h: Hunk): (m: Header)
    requires MatchHeader(h.header).Some?
    ensures AllDigits(m.left.start) && AllDigits(m.right.start)
  {
    MatchHeader(h.header).value
  }

  /** The state in the middle of a hunk. */
  ghost function Midway(files: seq<FileDiff>, fd: FileDiff, j: nat, k: nat): Parser
    requires j < |fd.hunks| && k <= |fd.hunks[j].lines| && HunkShape(fd.hunks[j])
  {
    var h := fd.hunks[j];
    Parser(files, Some(Partial(fd, j, k)), Advance(LeftStart(HeaderOf(h)), LeftCount(h.lines[..k])),
           Advance(RightStart(HeaderOf(h)), RightCount(h.lines[..k])))
  }

  /** A printed line is read back as the body line it came from. */
  lemma ReadBodyLine(p: Parser, kind: Kind, text: string)
    requires p.cur.Some? && p.cur.value.hunks != []
    requires kind.Add? ==> !HasPrefix(text, "++ ")
    requires kind.Del? ==> !HasPrefix(text, "-- ")
    ensures Step(p, [Mark(kind)] + text) ==
      Parser(p.files, Some(WithLine(p.cur.value, MakeLine(kind, p.left, p.right, text))),
             if kind.Add? then p.left else Increment(p.left),
             if kind.Del? then p.right else Increment(p.right))
  {
    hide MatchHeader, MakeLine, WithLine, NewSidePath, OldSidePath;
    var ln := [Mark(kind)] + text;
    assert ln[0] == Mark(kind) && ln[1..] == text;
    assert "diff --git "[0] == 'd' && "@@"[0] == '@';
  }

  lemma WithLinePartial(fd: FileDiff, j: nat, k: nat)
    requires j < |fd.hunks| && k < |fd.hunks[j].lines|
    ensures WithLine(Partial(fd, j, k), fd.hunks[j].lines[k]) == Partial(fd, j, k + 1)
  {
    var h := fd.hunks[j];
    assert h.lines[..k + 1] == h.lines[..k] + [h.lines[k]];
    CountSnoc(h.lines[..k], h.lines[k], Add);
    CountSnoc(h.lines[..k], h.lines[k], Del);
  }

  lemma {:induction false} ReadBody(files: seq<FileDiff>, fd: FileDiff, j: nat, k: nat)
    requires j < |fd.hunks| && k <= |fd.hunks[j].lines| && HunkShape(fd.hunks[j])
    ensures Fold(Midway(files, fd, j, k), BodyLines(fd.hunks[j].lines[k..]))
         == Midway(files, fd, j, |fd.hunks[j].lines|)
    decreases |fd.hunks[j].lines| - k
  {
    hide Step, MatchHeader, MakeLine, Advance, Count, CountAll, WithLine, LeftCount, RightCount;
    var h := fd.hunks[j];
    if k == |h.lines| {
      assert h.lines[k..] == [];
    } else {
      var p, ln := Midway(files, fd, j, k), h.lines[k];
      assert h.lines[k..][1..] == h.lines[k + 1..];
      assert BodyLines(h.lines[k..])[1..] == BodyLines(h.lines[k + 1..]);
      assert NumberedAt(h.lines, LeftStart(HeaderOf(h)), RightStart(HeaderOf(h)), k) && TextOk(ln);
      ReadBodyLine(p, ln.kind, ln.text);
      WithLinePartial(fd, j, k);
      assert h.lines[..k + 1] == h.lines[..k] + [ln];
      SideCountsSnoc(h.lines[..k], ln);
      AdvanceSplit(LeftStart(HeaderOf(h)), LeftCount(h.lines[..k]));
      AdvanceSplit(RightStart(HeaderOf(h)), RightCount(h.lines[..k]));
      assert Step(p, [Mark(ln.kind)] + ln.text) == Midway(files, fd, j, k + 1);
      ReadBody(files, fd, j, k + 1);
    }
  }

  lemma AdvanceSplit(n: int, k: nat)
    ensures Advance(n, k + 1) == Increment(Advance(n, k))
  {}

  /** Everything of a file up to its first `j` hunks. */
  function FirstHunks(fd: FileDiff, j: nat): FileDiff
    requires j <= |fd.hunks|
  {
    FileDiff("", CountAll(fd.hunks[..j], Add), CountAll(fd.hunks[..j], Del), fd.hunks[..j])
  }

  lemma PartialEnds(fd: FileDiff, j: nat)
    requires j < |fd.hunks|
    ensures Partial(fd, j, |fd.hunks[j].lines|) == FirstHunks(fd, j + 1)
  {
    assert fd.hunks[j].lines[..|fd.hunks[j].lines|] == fd.hunks[j].lines;
    assert fd.hunks[..j + 1] == fd.hunks[..j] + [fd.hunks[j]];
    CountAllSnoc(fd.hunks[..j], fd.hunks[j], Add);
    CountAllSnoc(fd.hunks[..j], fd.hunks[j], Del);
  }

  lemma ReadHeader(p: Parser, ln: string)
    requires p.cur.Some? && MatchHeader(ln).Some?
    ensures Step(p, ln) ==
      Parser(p.files, Some(p.cur.value.(hunks := p.cur.value.hunks + [Hunk(ln, [])])),
             LeftStart(MatchHeader(ln).value), RightStart(MatchHeader(ln).value))
  {
    hide MatchHeader, Advance;
    assert ln[0] == '@';
  }

  lemma ReadHunk(p: Parser, fd: FileDiff, j: nat)
    requires j < |fd.hunks| && HunkShape(fd.hunks[j]) && p.cur == Some(FirstHunks(fd, j))
    ensures Fold(p, [fd.hunks[j].header] + BodyLines(fd.hunks[j].lines)) == Midway(p.files, fd, j, |fd.hunks[j].lines|)
  {
    hide Step, MatchHeader;
    var h := fd.hunks[j];
    ReadHeader(p, h.header);
    assert h.lines[..0] == [] && h.lines[0..] == h.lines;
    assert Step(p, h.header) == Midway(p.files, fd, j, 0);
    ReadBody(p.files, fd, j, 0);
    assert ([h.header] + BodyLines(h.lines))[1..] == BodyLines(h.lines);
  }

  lemma {:induction false} ReadHunks(p: Parser, fd: FileDiff, j: nat)
    requires j <= |fd.hunks| && FileShape(fd) && p.cur == Some(FirstHunks(fd, j))
    ensures Fold(p, HunkLines(fd.hunks[j..])).files == p.files
    ensures Fold(p, HunkLines(fd.hunks[j..])).cur == Some(ClearPath(fd))
    decreases |fd.hunks| - j
  {
    if j == |fd.hunks| {
      assert fd.hunks[j..] == [] && fd.hunks[..j] == fd.hunks;
    } else {
      var h := fd.hunks[j];
      assert h in fd.hunks;
      assert fd.hunks[j..][1..] == fd.hunks[j + 1..];
      var first := [h.header] + BodyLines(h.lines);
      assert HunkLines(fd.hunks[j..]) == first + HunkLines(fd.hunks[j + 1..]);
      FoldConcat(p, first, HunkLines(fd.hunks[j + 1..]));
      ReadHunk(p, fd, j);
      PartialEnds(fd, j);
      ReadHunks(Fold(p, first), fd, j + 1);
    }
  }

  lemma ReadTitle(p: Parser, fd: FileDiff)
    ensures Step(p, TitleLine(fd)) == p.(files := Flush(p), cur := Some(FRESH))
  {
    assert TitleLine(fd)[..11] == "diff --git ";
  }

  lemma {:induction false} ReadFiles(p: Parser, files: seq<FileDiff>)
    requires forall fd <- files :: FileShape(fd)
    ensures Flush(Fold(p, FileLines(files))) == Flush(p) + ClearPaths(files)
    decreases |files|
  {
    hide Step, FileShape, HunkLines;
    if files == [] {
      assert ClearPaths(files) == [];
    } else {
      var fd := files[0];
      assert fd in files;
      var lines, rest := HunkLines(fd.hunks), FileLines(files[1..]);
      assert FileLines(files) == [TitleLine(fd)] + (lines + rest);
      assert FileLines(files)[1..] == lines + rest;
      ReadTitle(p, fd);
      var p1 := Step(p, TitleLine(fd));
      assert fd.hunks[..0] == [] && fd.hunks[0..] == fd.hunks;
      ReadHunks(p1, fd, 0);
      FoldConcat(p1, lines, rest);
      ReadFiles(Fold(p1, lines), files[1..]);
      assert ClearPaths(files) == [ClearPath(fd)] + ClearPaths(files[1..]);
    }
  }

  lemma {:induction false} BodyLinesClean(lines: seq<DiffLine>)
    requires forall ln <- lines :: '\n' !in ln.text
    ensures NoNewline(BodyLines(lines))
  {
    if lines != [] {
      assert lines[0] in lines;
      BodyLinesClean(lines[1..]);
    }
  }

  lemma {:induction false} HunkLinesClean(hunks: seq<Hunk>)
    requires forall h <- hunks :: HunkShape(h)
    ensures NoNewline(HunkLines(hunks))
  {
    if hunks != [] {
      var h := hunks[0];
      assert h in hunks;
      forall ln | ln in h.lines ensures '\n' !in ln.text {
        var k :| 0 <= k < |h.lines| && h.lines[k] == ln;
        assert TextOk(h.lines[k]);
      }
      BodyLinesClean(h.lines);
      HunkLinesClean(hunks[1..]);
    }
  }

  lemma {:induction false} FileLinesClean(files: seq<FileDiff>)
    requires forall fd <- files :: FileShape(fd)
    ensures NoNewline(FileLines(files))
  {
    if files != [] {
      assert files[0] in files;
      HunkLinesClean(files[0].hunks);
      FileLinesClean(files[1..]);
      assert '\n' !in "diff --git a/" && '\n' !in " b/";
    }
  }

  /** Any diff of the parsed shape is read back from its printed form, paths aside. */
  lemma RenderReadsBack(files: seq<FileDiff>)
    requires forall fd <- files :: FileShape(fd)
    ensures Parse(Render(files)) == ClearPaths(files)
  {
    FileLinesClean(files);
    SplitUnlines(FileLines(files));
    FoldConcat(START, FileLines(files), [""]);
    FoldOne(Fold(START, FileLines(files)), "");
    ReadFiles(START, files);
  }

  /** Each file stands in the text between those before and those after it: a title line with its path
      twice, then its hunks. */
  lemma {:induction false} RenderedFile(files: seq<FileDiff>, k: nat)
    requires k < |files|
    ensures Render(files) ==
      Render(files[..k])
      + ("diff --git a/" + files[k].path + " b/" + files[k].path + "\n" + Unlines(HunkLines(files[k].hunks)))
      + Render(files[k + 1..])
  {
    hide Unlines, HunkLines, TitleLine;
    FileLinesConcat(files[..k], files[k..]);
    assert files == files[..k] + files[k..];
    UnlinesConcat(FileLines(files[..k]), FileLines(files[k..]));
    FileLinesCons(files, k);
    TitleText(files[k]);
  }

  lemma TitleText(fd: FileDiff)
    ensures TitleLine(fd) == "diff --git a/" + fd.path + " b/" + fd.path
  {}

  lemma {:induction false} FileLinesConcat(a: seq<FileDiff>, b: seq<FileDiff>)
    ensures FileLines(a + b) == FileLines(a) + FileLines(b)
  {
    if a == [] {
      assert a + b == b;
    } else {
      assert (a + b)[1..] == a[1..] + b;
      FileLinesConcat(a[1..], b);
    }
  }

  /** So although the parser cannot read the paths back, the text still tells them apart: two diffs
      of the parsed shape print alike only if they are the same, paths and all. */
  lemma RenderInjective(a: seq<FileDiff>, b: seq<FileDiff>)
    requires forall fd <- a + b :: FileShape(fd)
    ensures Render(a) == Render(b) <==> a == b
  {
    if Render(a) == Render(b) {
      assert forall fd <- a :: fd in a + b;
      assert forall fd <- b :: fd in a + b;
      RenderReadsBack(a);
      RenderReadsBack(b);
      FileLinesClean(a);
      FileLinesClean(b);
      SplitUnlines(FileLines(a));
      SplitUnlines(FileLines(b));
      AppendedEqual(FileLines(a), FileLines(b), "");
      SameLinesSameFiles(a, b);
    }
  }

  lemma AppendedEqual(a: seq<string>, b: seq<string>, last: string)
    requires a + [last] == b + [last]
    ensures a == b
  {
    assert a == (a + [last])[..|a + [last]| - 1];
    assert b == (b + [last])[..|b + [last]| - 1];
  }

  lemma {:induction false} SameLinesSameFiles(a: seq<FileDiff>, b: seq<FileDiff>)
    requires ClearPaths(a) == ClearPaths(b) && FileLines(a) == FileLines(b)
    ensures a == b
  {
    assert |a| == |ClearPaths(a)| == |ClearPaths(b)| == |b|;
    if a != [] {
      assert ClearPaths(a)[0] == ClearPaths(b)[0];
      assert FileLines(a)[0] == TitleLine(a[0]) && FileLines(b)[0] == TitleLine(b[0]);
      TitleTellsPath(a[0], b[0]);
      assert a[0] == b[0];
      var head := [TitleLine(a[0])] + HunkLines(a[0].hunks);
      assert FileLines(a[1..]) == FileLines(a)[|head|..] && FileLines(b[1..]) == FileLines(b)[|head|..];
      assert ClearPaths(a[1..]) == ClearPaths(a)[1..] && ClearPaths(b[1..]) == ClearPaths(b)[1..];
      SameLinesSameFiles(a[1..], b[1..]);
      assert a == [a[0]] + a[1..] && b == [b[0]] + b[1..];
    }
  }

  lemma TitleTellsPath(x: FileDiff, y: FileDiff)
    requires TitleLine(x) == TitleLine(y)
    ensures x.path == y.path
  {
    assert |TitleLine(x)| == 16 + 2 * |x.path| && |TitleLine(y)| == 16 + 2 * |y.path|;
    assert x.path == TitleLine(x)[13..13 + |x.path|] && y.path == TitleLine(y)[13..13 + |y.path|];
  }

  /** For every input text: parse, print and parse again gives the same hunks, headers,
      texts, numbers and counts, with the paths cleared because none is printed. */
  lemma NormalForm(diff: string)
    ensures Parse(Render(Parse(diff))) == ClearPaths(Parse(diff))
  {
    ParsedShape(diff);
    RenderReadsBack(Parse(diff));
  }

  lemma {:induction false} InertFold(p: Parser, lines: seq<string>)
    requires forall ln <- lines :: Step(p, ln) == p
    ensures Fold(p, lines) == p
  {
    if lines != [] {
      assert lines[0] in lines;
      InertFold(p, lines[1..]);
    }
  }

  lemma MarkerLines(a: string)
    ensures Split(a + TRUNCATED, '\n') == Split(a, '\n') + ["", "[diff truncated]", ""]
  {
    hide Split;
    var marker := "[diff truncated]";
    var last := marker + ['\n'] + "";
    var both := "" + ['\n'] + last;
    SplitAtom("", '\n');
    SplitAtom(marker, '\n');
    SplitConcat(marker, "", '\n');
    SplitConcat("", last, '\n');
    SplitConcat(a, both, '\n');
    assert TRUNCATED == ['\n'] + both;
    assert a + TRUNCATED == a + ['\n'] + both;
  }

  /** The truncation marker adds nothing to what the cut text parses to. */
  lemma TruncationMarkerInert(a: string)
    ensures Parse(a + TRUNCATED) == Parse(a)
  {
    hide Fold, Split;
    MarkerLines(a);
    var p := Fold(START, Split(a, '\n'));
    var tail := ["", "[diff truncated]", ""];
    FoldConcat(START, Split(a, '\n'), tail);
    assert "[diff truncated]"[0] == '[';
    forall ln | ln in tail ensures Step(p, ln) == p {}
    InertFold(p, tail);
  }
}
