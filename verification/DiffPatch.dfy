/**
 Edit scripts between an old and a new file, printed in git's unified layout (the
 "Diff -u Output Format" of POSIX.1-2017 `diff`, with git's title, extended headers,
 omitted unit counts, quoted names and end-of-file markers), and what parseDiff of
 internal/git/diff.go makes of them.
 */
module DiffPatch {
  import opened Wrappers
  import opened Text
  import opened Diff
  import opened DiffRender

  // ---- Edit scripts ----

  /** `NoEol` is git's "\ No newline at end of file" line. */
  datatype Item = Keep(text: string) | Insert(text: string) | Remove(text: string) | NoEol

  /** A script alternates unchanged stretches that the diff leaves out and printed hunks. */
  datatype Segment = Skip(lines: seq<string>) | Change(items: seq<Item>, heading: string)

  /** `from` is absent for a created file, `to` for a deleted one. `meta` holds git's
      extended header lines (index, mode, similarity, rename). */
  datatype FileEdit = FileEdit(title: string, meta: seq<string>, from: Option<string>, to: Option<string>,
                               segs: seq<Segment>)

  function OldItems(items: seq<Item>): seq<string> {
    if items == [] then []
    else (if items[0].Keep? || items[0].Remove? then [items[0].text] else []) + OldItems(items[1..])
  }

  function NewItems(items: seq<Item>): seq<string> {
    if items == [] then []
    else (if items[0].Keep? || items[0].Insert? then [items[0].text] else []) + NewItems(items[1..])
  }

  function OldLines(segs: seq<Segment>): seq<string> {
    if segs == [] then []
    else (match segs[0] case Skip(ls) => ls case Change(items, _) => OldItems(items)) + OldLines(segs[1..])
  }

  function NewLines(segs: seq<Segment>): seq<string> {
    if segs == [] then []
    else (match segs[0] case Skip(ls) => ls case Change(items, _) => NewItems(items)) + NewLines(segs[1..])
  }

  // ---- Printing ----

  /** A side of the hunk header: the line before when the side is empty, and no count of one. */
  function PrintRange(offset: nat, count: nat): string {
    Decimal(if count == 0 then offset else offset + 1) + (if count == 1 then "" else "," + Decimal(count))
  }

  function PrintHeader(lo: nat, lc: nat, ro: nat, rc: nat, heading: string): string {
    "@@ -" + PrintRange(lo, lc) + " +" + PrintRange(ro, rc) + " @@" + (if heading == "" then "" else " " + heading)
  }

  function PrintItem(it: Item): string {
    match it
    case Keep(t) => " " + t
    case Insert(t) => "+" + t
    case Remove(t) => "-" + t
    case NoEol => "\\ No newline at end of file"
  }

  function PrintItems(items: seq<Item>): seq<string> {
    if items == [] then [] else [PrintItem(items[0])] + PrintItems(items[1..])
  }

  function HeaderAt(lo: nat, ro: nat, items: seq<Item>, heading: string): string {
    PrintHeader(lo, |OldItems(items)|, ro, |NewItems(items)|, heading)
  }

  function PrintSegs(lo: nat, ro: nat, segs: seq<Segment>): seq<string>
    decreases |segs|
  {
    if segs == [] then []
    else match segs[0]
      case Skip(ls) => PrintSegs(lo + |ls|, ro + |ls|, segs[1..])
      case Change(items, heading) =>
        [HeaderAt(lo, ro, items, heading)] + PrintItems(items)
        + PrintSegs(lo + |OldItems(items)|, ro + |NewItems(items)|, segs[1..])
  }

  predicate HasHunk(segs: seq<Segment>) {
    exists seg <- segs :: seg.Change?
  }

  /** Bytes git quotes in a file name. */
  predicate Special(c: char) {
    c < ' ' || c == '"' || c == '\\' || c as int >= 127
  }

  function Octal(n: nat): char {
    Digit(n % 8)
  }

  function EscapeChar(c: char): (s: string)
    ensures |s| >= 1 && '\n' !in s
  {
    if !Special(c) then [c]
    else if c == '"' then "\\\"" else if c == '\\' then "\\\\"
    else if c == '\n' then "\\n" else if c == '\t' then "\\t" else if c == '\r' then "\\r"
    else if c as int == 7 then "\\a" else if c as int == 8 then "\\b"
    else if c as int == 11 then "\\v" else if c as int == 12 then "\\f"
    else ['\\', Octal(c as int / 64), Octal(c as int / 8), Octal(c as int)]
  }

  function Escape(s: string): (e: string)
    ensures |e| >= |s| && '\n' !in e
  {
    if s == "" then "" else EscapeChar(s[0]) + Escape(s[1..])
  }

  predicate NeedsQuotes(name: string) {
    exists c <- name :: Special(c)
  }

  /** A name as git labels it: quoted when it has special bytes, and followed by a tab when
      it has a space. */
  function PrintName(side: string, name: string): string {
    (if NeedsQuotes(name) then "\"" + side + Escape(name) + "\"" else side + name)
    + (if ' ' in name then "\t" else "")
  }

  function Label(side: string, name: Option<string>): string {
    if name.Some? then PrintName(side, name.value) else "/dev/null"
  }

  /** Everything between the title and the first hunk. */
  function Preamble(fe: FileEdit): seq<string> {
    fe.meta + if HasHunk(fe.segs) then ["--- " + Label("a/", fe.from), "+++ " + Label("b/", fe.to)] else []
  }

  function EditLines(fe: FileEdit): seq<string> {
    ["diff --git " + fe.title] + (Preamble(fe) + PrintSegs(0, 0, fe.segs))
  }

  function AllLines(edits: seq<FileEdit>): seq<string> {
    if edits == [] then [] else EditLines(edits[0]) + AllLines(edits[1..])
  }

  /** The text git writes for the edits. */
  function GitText(edits: seq<FileEdit>): string {
    Unlines(AllLines(edits))
  }

  /** Extended header lines start with one of git's fixed words; none of them starts like
      a line the parser acts on before the first hunk. */
  predicate MetaLine(ln: string) {
    && '\n' !in ln
    && !HasPrefix(ln, "diff --git ") && !HasPrefix(ln, "+++ ") && !HasPrefix(ln, "--- ") && !HasPrefix(ln, "@@")
  }

  ghost predicate CleanItem(it: Item) {
    it.NoEol? || '\n' !in it.text
  }

  ghost predicate CleanSeg(seg: Segment) {
    match seg
    case Skip(_) => true
    case Change(items, heading) => '\n' !in heading && forall it <- items :: CleanItem(it)
  }

  /** Texts are single lines, and line numbers fit Go's int. */
  ghost predicate Printable(fe: FileEdit) {
    && '\n' !in fe.title
    && (forall ln <- fe.meta :: MetaLine(ln))
    && (forall seg <- fe.segs :: CleanSeg(seg))
    && |OldLines(fe.segs)| <= MAX_INT && |NewLines(fe.segs)| <= MAX_INT
  }

  // ---- What the parser recovers ----

  /** The parser takes these for file-name lines and drops them from the hunk. */
  predicate Trapped(it: Item) {
    || (it.Insert? && HasPrefix(it.text, "++ "))
    || (it.Remove? && HasPrefix(it.text, "-- "))
  }

  function ItemKind(it: Item): Kind
    requires !it.NoEol?
  {
    match it case Keep(_) => Ctx case Insert(_) => Add case Remove(_) => Del
  }

  /** The diff lines the items amount to, numbered from `left` and `right`. With `seen` only
      the untrapped ones appear; without it, all of them: the faithful reading. */
  function Number(items: seq<Item>, left: int, right: int, seen: bool): seq<DiffLine>
    decreases |items|
  {
    if items == [] then []
    else if items[0].NoEol? || (seen && Trapped(items[0])) then Number(items[1..], left, right, seen)
    else
      var kind := ItemKind(items[0]);
      [MakeLine(kind, left, right, items[0].text)]
      + Number(items[1..], if kind.Add? then left else Increment(left), if kind.Del? then right else Increment(right), seen)
  }

  function First(offset: nat, count: nat): nat {
    if count == 0 then offset else offset + 1
  }

  function HunkAt(lo: nat, ro: nat, items: seq<Item>, heading: string, seen: bool): Hunk {
    Hunk(HeaderAt(lo, ro, items, heading),
         Number(items, First(lo, |OldItems(items)|), First(ro, |NewItems(items)|), seen))
  }

  function HunksAt(lo: nat, ro: nat, segs: seq<Segment>, seen: bool): seq<Hunk>
    decreases |segs|
  {
    if segs == [] then []
    else match segs[0]
      case Skip(ls) => HunksAt(lo + |ls|, ro + |ls|, segs[1..], seen)
      case Change(items, heading) =>
        [HunkAt(lo, ro, items, heading, seen)]
        + HunksAt(lo + |OldItems(items)|, ro + |NewItems(items)|, segs[1..], seen)
  }

  /** The hunks of the script, every printed line in its place. */
  function TrueHunks(fe: FileEdit): seq<Hunk> {
    HunksAt(0, 0, fe.segs, false)
  }

  /** The hunks the parser returns. */
  function SeenHunks(fe: FileEdit): seq<Hunk> {
    HunksAt(0, 0, fe.segs, true)
  }

  predicate AnyTrapped(items: seq<Item>) {
    exists it <- items :: Trapped(it)
  }

  predicate HasTrap(segs: seq<Segment>) {
    exists seg <- segs :: seg.Change? && AnyTrapped(seg.items)
  }

  /** Trapped lines also overwrite the path. */
  function PathAfterItems(path: string, items: seq<Item>): string
    decreases |items|
  {
    if items == [] then path
    else
      var ln := PrintItem(items[0]);
      PathAfterItems(
        if !Trapped(items[0]) then path
        else if items[0].Insert? then NewSidePath(path, ln) else OldSidePath(path, ln), items[1..])
  }

  function PathAfterSegs(path: string, segs: seq<Segment>): string
    decreases |segs|
  {
    if segs == [] then path
    else PathAfterSegs(match segs[0] case Skip(_) => path case Change(items, _) => PathAfterItems(path, items), segs[1..])
  }

  function HeaderPath(fe: FileEdit): string {
    if HasHunk(fe.segs)
    then NewSidePath(OldSidePath("", "--- " + Label("a/", fe.from)), "+++ " + Label("b/", fe.to))
    else ""
  }

  function Recovered(fe: FileEdit): FileDiff {
    var hunks := SeenHunks(fe);
    FileDiff(PathAfterSegs(HeaderPath(fe), fe.segs), CountAll(hunks, Add), CountAll(hunks, Del), hunks)
  }

  function RecoveredAll(edits: seq<FileEdit>): seq<FileDiff> {
    if edits == [] then [] else [Recovered(edits[0])] + RecoveredAll(edits[1..])
  }

  // ---- Reading a printed header ----

  lemma {:induction false} DigitsThen(d: string, rest: string)
    requires AllDigits(d)
    requires rest == "" || !IsDigit(rest[0])
    ensures DigitCount(d + rest) == |d|
  {
    if d == "" {
      assert d + rest == rest;
    } else {
      assert d[0] in d && (d + rest)[1..] == d[1..] + rest;
      DigitsThen(d[1..], rest);
    }
  }

  lemma MatchPrintedRange(offset: nat, count: nat, rest: string)
    requires HasPrefix(rest, " ")
    ensures
      MatchRange(PrintRange(offset, count) + rest) ==
      Some(Range(Decimal(First(offset, count)), if count == 1 then None else Some(Decimal(count)), rest))
  {
    hide Decimal, DigitCount, AllDigits;
    var d := Decimal(First(offset, count));
    var s := PrintRange(offset, count) + rest;
    if count == 1 {
      DigitsThen(d, rest);
      assert s == d + rest;
      assert s[..|d|] == d && s[|d|..] == rest;
    } else {
      var c := Decimal(count);
      var tail := c + rest;
      assert s == d + ("," + tail);
      DigitsThen(d, "," + tail);
      DigitsThen(c, rest);
      assert s[..|d|] == d && s[|d|] == ',' && s[|d| + 1..] == tail;
      assert tail[..|c|] == c && tail[|c|..] == rest;
    }
  }

  lemma MatchPrintedHeader(lo: nat, lc: nat, ro: nat, rc: nat, heading: string)
    ensures
      var m := MatchHeader(PrintHeader(lo, lc, ro, rc, heading));
      && m.Some?
      && m.value.left.start == Decimal(First(lo, lc)) && m.value.right.start == Decimal(First(ro, rc))
      && m.value.left.count == (if lc == 1 then None else Some(Decimal(lc)))
      && m.value.right.count == (if rc == 1 then None else Some(Decimal(rc)))
  {
    hide MatchRange, PrintRange, Decimal;
    var tail := " @@" + (if heading == "" then "" else " " + heading);
    var right := PrintRange(ro, rc) + tail;
    var left := PrintRange(lo, lc) + (" +" + right);
    var ln := PrintHeader(lo, lc, ro, rc, heading);
    assert ln == "@@ -" + left;
    assert ln[4..] == left;
    MatchPrintedRange(lo, lc, " +" + right);
    assert (" +" + right)[2..] == right;
    MatchPrintedRange(ro, rc, tail);
  }

  lemma PrintedStarts(lo: nat, lc: nat, ro: nat, rc: nat, heading: string)
    requires First(lo, lc) <= MAX_INT && First(ro, rc) <= MAX_INT
    ensures
      var m := MatchHeader(PrintHeader(lo, lc, ro, rc, heading));
      m.Some? && LeftStart(m.value) == First(lo, lc) && RightStart(m.value) == First(ro, rc)
  {
    hide MatchHeader, PrintHeader, Decimal, Value;
    MatchPrintedHeader(lo, lc, ro, rc, heading);
    ValueDecimal(First(lo, lc));
    ValueDecimal(First(ro, rc));
  }

  // ---- Reading a printed hunk ----

  lemma {:induction false} CountConcat(a: seq<DiffLine>, b: seq<DiffLine>, kind: Kind)
    ensures Count(a + b, kind) == Count(a, kind) + Count(b, kind)
  {
    if b == [] {
      assert a + b == a;
    } else {
      assert (a + b)[..|a + b| - 1] == a + b[..|b| - 1];
      CountConcat(a, b[..|b| - 1], kind);
    }
  }

  lemma {:induction false} CountAllConcat(a: seq<Hunk>, b: seq<Hunk>, kind: Kind)
    ensures CountAll(a + b, kind) == CountAll(a, kind) + CountAll(b, kind)
  {
    if b == [] {
      assert a + b == a;
    } else {
      assert (a + b)[..|a + b| - 1] == a + b[..|b| - 1];
      CountAllConcat(a, b[..|b| - 1], kind);
    }
  }

  /** The file with lines added to its last hunk. */
  function WithLines(fd: FileDiff, lines: seq<DiffLine>): FileDiff
    requires fd.hunks != []
  {
    var h := LastHunk(fd);
    fd.(additions := fd.additions + Count(lines, Add), deletions := fd.deletions + Count(lines, Del),
        hunks := fd.hunks[|fd.hunks| - 1 := h.(lines := h.lines + lines)])
  }

  lemma WithLinesCons(fd: FileDiff, ln: DiffLine, lines: seq<DiffLine>)
    requires fd.hunks != []
    ensures WithLines(WithLine(fd, ln), lines) == WithLines(fd, [ln] + lines)
  {
    CountConcat([ln], lines, Add);
    CountConcat([ln], lines, Del);
    assert [ln][..0] == [];
    assert LastHunk(fd).lines + [ln] + lines == LastHunk(fd).lines + ([ln] + lines);
  }

  lemma ReadItem(p: Parser, it: Item)
    requires p.cur.Some? && p.cur.value.hunks != []
    ensures it.NoEol? ==> Step(p, PrintItem(it)) == p
    ensures Trapped(it) ==>
      Step(p, PrintItem(it)) == p.(cur := Some(p.cur.value.(path := PathAfterItems(p.cur.value.path, [it]))))
    ensures !it.NoEol? && !Trapped(it) ==>
      var kind := ItemKind(it);
      Step(p, PrintItem(it)) ==
        Parser(p.files, Some(WithLine(p.cur.value, MakeLine(kind, p.left, p.right, it.text))),
               if kind.Add? then p.left else Increment(p.left),
               if kind.Del? then p.right else Increment(p.right))
  {
    hide MatchHeader, MakeLine, WithLine;
    if !it.NoEol? {
      assert PrintItem(it) == [Mark(ItemKind(it))] + it.text;
      if Trapped(it) {
        assert [it][1..] == [];
        assert PrintItem(it)[..4] == (if it.Insert? then "+++ " else "--- ");
      } else {
        ReadBodyLine(p, ItemKind(it), it.text);
      }
    } else {
      assert PrintItem(it)[0] == '\\';
    }
  }

  lemma {:induction false} ReadItems(p: Parser, items: seq<Item>)
    requires p.cur.Some? && p.cur.value.hunks != []
    ensures Fold(p, PrintItems(items)).files == p.files
    ensures Fold(p, PrintItems(items)).cur ==
      Some(WithLines(p.cur.value, Number(items, p.left, p.right, true))
             .(path := PathAfterItems(p.cur.value.path, items)))
    decreases |items|
  {
    hide Step, MakeLine, PrintItem, WithLine, PathAfterItems, Count;
    var fd := p.cur.value;
    if items == [] {
      NothingRead(fd);
    } else {
      var it, rest := items[0], items[1..];
      ReadItem(p, it);
      assert PrintItems(items)[1..] == PrintItems(rest);
      PathAfterCons(fd.path, items);
      var p1 := Step(p, PrintItem(it));
      if it.NoEol? || Trapped(it) {
        ReadItems(p1, rest);
      } else {
        var ln := MakeLine(ItemKind(it), p.left, p.right, it.text);
        WithLineKeepsPath(fd, ln);
        ReadItems(p1, rest);
        WithLinesCons(fd, ln, Number(rest, p1.left, p1.right, true));
      }
    }
  }

  lemma NothingRead(fd: FileDiff)
    requires fd.hunks != []
    ensures WithLines(fd, []) == fd
    ensures PathAfterItems(fd.path, []) == fd.path
  {
    assert LastHunk(fd).lines + [] == LastHunk(fd).lines;
  }

  lemma PathAfterCons(path: string, items: seq<Item>)
    requires items != []
    ensures PathAfterItems(path, items) == PathAfterItems(PathAfterItems(path, [items[0]]), items[1..])
    ensures !Trapped(items[0]) ==> PathAfterItems(path, [items[0]]) == path
  {
    assert [items[0]][1..] == [];
  }

  lemma WithLineKeepsPath(fd: FileDiff, ln: DiffLine)
    requires fd.hunks != []
    ensures WithLine(fd, ln).path == fd.path && WithLine(fd, ln).hunks != []
  {}

  lemma ReadChange(p: Parser, lo: nat, ro: nat, items: seq<Item>, heading: string)
    requires p.cur.Some?
    requires lo + |OldItems(items)| <= MAX_INT && ro + |NewItems(items)| <= MAX_INT
    ensures
      var h := HunkAt(lo, ro, items, heading, true);
      var fd := p.cur.value;
      var p' := Fold(p, [h.header] + PrintItems(items));
      && p'.files == p.files
      && p'.cur == Some(FileDiff(PathAfterItems(fd.path, items), fd.additions + Count(h.lines, Add),
                                 fd.deletions + Count(h.lines, Del), fd.hunks + [h]))
  {
    hide Step, MatchHeader, PrintHeader, Number;
    var h := HunkAt(lo, ro, items, heading, true);
    var fd := p.cur.value;
    PrintedStarts(lo, |OldItems(items)|, ro, |NewItems(items)|, heading);
    ReadHeader(p, h.header);
    var p1 := Step(p, h.header);
    assert ([h.header] + PrintItems(items))[1..] == PrintItems(items);
    ReadItems(p1, items);
    assert (fd.hunks + [Hunk(h.header, [])])[|fd.hunks| := h] == fd.hunks + [h];
    assert [] + h.lines == h.lines;
  }

  lemma SegsCons(segs: seq<Segment>)
    requires segs != []
    ensures segs[0].Skip? ==>
      && OldLines(segs) == segs[0].lines + OldLines(segs[1..])
      && NewLines(segs) == segs[0].lines + NewLines(segs[1..])
    ensures segs[0].Change? ==>
      && OldLines(segs) == OldItems(segs[0].items) + OldLines(segs[1..])
      && NewLines(segs) == NewItems(segs[0].items) + NewLines(segs[1..])
  {}

  lemma SegsEnd(p: Parser, lo: nat, ro: nat)
    ensures Fold(p, PrintSegs(lo, ro, [])) == p
    ensures CountAll([], Add) == CountAll([], Del) == 0
  {}

  lemma {:induction false} ReadSegs(p: Parser, lo: nat, ro: nat, segs: seq<Segment>)
    requires p.cur.Some?
    requires lo + |OldLines(segs)| <= MAX_INT && ro + |NewLines(segs)| <= MAX_INT
    ensures
      var hunks := HunksAt(lo, ro, segs, true);
      var fd := p.cur.value;
      var p' := Fold(p, PrintSegs(lo, ro, segs));
      && p'.files == p.files
      && p'.cur == Some(FileDiff(PathAfterSegs(fd.path, segs), fd.additions + CountAll(hunks, Add),
                                 fd.deletions + CountAll(hunks, Del), fd.hunks + hunks))
    decreases |segs|
  {
    hide Step, Fold, Number, PrintItems, HeaderAt, PathAfterItems, OldItems, NewItems, OldLines, NewLines, Count, CountAll;
    SegsEnd(p, lo, ro);
    var fd := p.cur.value;
    if segs == [] {
      assert fd.hunks + [] == fd.hunks;
    } else {
      SegsCons(segs);
      match segs[0]
      case Skip(ls) =>
        ReadSegs(p, lo + |ls|, ro + |ls|, segs[1..]);
      case Change(items, heading) =>
        var h := HunkAt(lo, ro, items, heading, true);
        var lo', ro' := lo + |OldItems(items)|, ro + |NewItems(items)|;
        var first, rest := [h.header] + PrintItems(items), PrintSegs(lo', ro', segs[1..]);
        assert PrintSegs(lo, ro, segs) == first + rest;
        FoldConcat(p, first, rest);
        ReadChange(p, lo, ro, items, heading);
        ReadSegs(Fold(p, first), lo', ro', segs[1..]);
        JoinHunks(fd.hunks, h, HunksAt(lo', ro', segs[1..], true));
    }
  }

  lemma JoinHunks(before: seq<Hunk>, h: Hunk, rest: seq<Hunk>)
    ensures before + [h] + rest == before + ([h] + rest)
    ensures CountAll([h] + rest, Add) == Count(h.lines, Add) + CountAll(rest, Add)
    ensures CountAll([h] + rest, Del) == Count(h.lines, Del) + CountAll(rest, Del)
  {
    CountAllConcat([h], rest, Add);
    CountAllConcat([h], rest, Del);
    assert [h][..0] == [];
  }

  // ---- Reading a printed diff ----

  lemma {:induction false} ReadMeta(p: Parser, lines: seq<string>)
    requires p.cur == Some(FRESH)
    requires forall ln <- lines :: MetaLine(ln)
    ensures Fold(p, lines) == p
    decreases |lines|
  {
    if lines != [] {
      assert lines[0] in lines;
      ReadMeta(p, lines[1..]);
    }
  }

  lemma ReadNames(p: Parser, a: string, b: string)
    requires p.cur == Some(FRESH)
    ensures Fold(p, ["--- " + a, "+++ " + b]) ==
      p.(cur := Some(FRESH.(path := NewSidePath(OldSidePath("", "--- " + a), "+++ " + b))))
  {
    hide MatchHeader, MakeLine, WithLine, Fold, OldSidePath, NewSidePath;
    var p1 := Step(p, "--- " + a);
    assert ("--- " + a)[0] == '-' && ("+++ " + b)[0] == '+';
    assert p1 == p.(cur := Some(FRESH.(path := OldSidePath("", "--- " + a))));
    FoldOne(p, "--- " + a);
    FoldOne(p1, "+++ " + b);
    FoldConcat(p, ["--- " + a], ["+++ " + b]);
    assert ["--- " + a, "+++ " + b] == ["--- " + a] + ["+++ " + b];
  }

  lemma ReadTitleText(p: Parser, t: string)
    ensures Step(p, "diff --git " + t) == p.(files := Flush(p), cur := Some(FRESH))
  {
    assert ("diff --git " + t)[..11] == "diff --git ";
  }

  lemma ReadPreamble(p: Parser, fe: FileEdit)
    requires Printable(fe) && p.cur == Some(FRESH)
    ensures Fold(p, Preamble(fe)) == p.(cur := Some(FRESH.(path := HeaderPath(fe))))
  {
    hide Step, Fold, HasHunk, CleanSeg, OldLines, NewLines, MetaLine, OldSidePath, NewSidePath, Label;
    ReadMeta(p, fe.meta);
    if HasHunk(fe.segs) {
      var a, b := Label("a/", fe.from), Label("b/", fe.to);
      FoldConcat(p, fe.meta, ["--- " + a, "+++ " + b]);
      ReadNames(p, a, b);
    } else {
      assert Preamble(fe) == fe.meta;
    }
  }

  lemma ReadEdit(p: Parser, fe: FileEdit)
    requires Printable(fe)
    ensures Fold(p, EditLines(fe)).files == Flush(p)
    ensures Fold(p, EditLines(fe)).cur == Some(Recovered(fe))
  {
    hide Step, Fold, Preamble, PrintSegs, HunksAt, HeaderPath, PathAfterSegs, OldLines, NewLines, CountAll, MetaLine, CleanSeg;
    var title, rest := "diff --git " + fe.title, Preamble(fe) + PrintSegs(0, 0, fe.segs);
    var p1 := Step(p, title);
    ReadTitleText(p, fe.title);
    FoldOne(p, title);
    FoldConcat(p, [title], rest);
    ReadPreamble(p1, fe);
    FoldConcat(p1, Preamble(fe), PrintSegs(0, 0, fe.segs));
    ReadSegs(Fold(p1, Preamble(fe)), 0, 0, fe.segs);
    assert [] + SeenHunks(fe) == SeenHunks(fe);
  }

  lemma {:induction false} ReadAll(p: Parser, edits: seq<FileEdit>)
    requires forall fe <- edits :: Printable(fe)
    ensures Flush(Fold(p, AllLines(edits))) == Flush(p) + RecoveredAll(edits)
    decreases |edits|
  {
    hide Step, EditLines, Recovered, Printable;
    if edits != [] {
      var fe := edits[0];
      assert fe in edits;
      ReadEdit(p, fe);
      FoldConcat(p, EditLines(fe), AllLines(edits[1..]));
      ReadAll(Fold(p, EditLines(fe)), edits[1..]);
    }
  }

  // ---- The printed text is made of single lines ----

  lemma DigitsClean(n: nat)
    ensures '\n' !in Decimal(n)
  {}

  lemma HeaderClean(lo: nat, lc: nat, ro: nat, rc: nat, heading: string)
    requires '\n' !in heading
    ensures '\n' !in PrintHeader(lo, lc, ro, rc, heading)
  {
    hide Decimal;
    DigitsClean(First(lo, lc));
    DigitsClean(lc);
    DigitsClean(First(ro, rc));
    DigitsClean(rc);
  }

  lemma {:induction false} ItemsClean(items: seq<Item>)
    requires forall it <- items :: CleanItem(it)
    ensures NoNewline(PrintItems(items))
  {
    if items != [] {
      var it := items[0];
      assert it in items;
      assert '\n' !in PrintItem(it);
      ItemsClean(items[1..]);
    }
  }

  lemma {:induction false} SegsClean(lo: nat, ro: nat, segs: seq<Segment>)
    requires forall seg <- segs :: CleanSeg(seg)
    ensures NoNewline(PrintSegs(lo, ro, segs))
    decreases |segs|
  {
    hide PrintHeader, PrintItems, OldItems, NewItems;
    if segs != [] {
      assert segs[0] in segs;
      match segs[0]
      case Skip(ls) => SegsClean(lo + |ls|, ro + |ls|, segs[1..]);
      case Change(items, heading) =>
        HeaderClean(lo, |OldItems(items)|, ro, |NewItems(items)|, heading);
        ItemsClean(items);
        SegsClean(lo + |OldItems(items)|, ro + |NewItems(items)|, segs[1..]);
    }
  }

  lemma LabelClean(side: string, name: Option<string>)
    requires '\n' !in side
    ensures '\n' !in Label(side, name)
  {
    if name.Some? && '\n' in name.value {
      assert Special('\n') && NeedsQuotes(name.value);
    }
  }

  lemma EditClean(fe: FileEdit)
    requires Printable(fe)
    ensures NoNewline(EditLines(fe))
  {
    hide Label, PrintSegs;
    SegsClean(0, 0, fe.segs);
    LabelClean("a/", fe.from);
    LabelClean("b/", fe.to);
    assert '\n' !in "diff --git " + fe.title && '\n' !in "--- " && '\n' !in "+++ ";
    forall ln | ln in Preamble(fe) ensures '\n' !in ln {
      assert ln in fe.meta || ln == "--- " + Label("a/", fe.from) || ln == "+++ " + Label("b/", fe.to);
    }
  }

  lemma {:induction false} AllClean(edits: seq<FileEdit>)
    requires forall fe <- edits :: Printable(fe)
    ensures NoNewline(AllLines(edits))
  {
    hide EditLines, Printable;
    if edits != [] {
      assert edits[0] in edits;
      EditClean(edits[0]);
      AllClean(edits[1..]);
    }
  }

  /** Exactly what the parser makes of git's output, for every list of printable edits. */
  lemma ParseGitText(edits: seq<FileEdit>)
    requires forall fe <- edits :: Printable(fe)
    ensures Parse(GitText(edits)) == RecoveredAll(edits)
  {
    hide AllLines, Printable, Step, Unlines, Split;
    AllClean(edits);
    SplitUnlines(AllLines(edits));
    FoldConcat(START, AllLines(edits), [""]);
    FoldOne(Fold(START, AllLines(edits)), "");
    BlankLineInert(Fold(START, AllLines(edits)));
    ReadAll(START, edits);
  }

  lemma BlankLineInert(p: Parser)
    ensures Step(p, "") == p
  {}
}
