/**
 When the diff parser is faithful to the diff it is given, exactly, and that the hunks it
 then returns rebuild the new file from the old one.
 */
module DiffFaithful {
  import opened Wrappers
  import opened Text
  import opened Diff
  import opened DiffRender
  import opened DiffPatch

  // ---- Hunks: faithful iff no line is trapped ----

  function TrapCount(items: seq<Item>): nat {
    if items == [] then 0 else (if Trapped(items[0]) then 1 else 0) + TrapCount(items[1..])
  }

  lemma {:induction false} TrapCountZero(items: seq<Item>)
    ensures TrapCount(items) == 0 <==> !AnyTrapped(items)
  {
    if items != [] {
      TrapCountZero(items[1..]);
      assert items == [items[0]] + items[1..];
    }
  }

  lemma {:induction false} SeenLength(items: seq<Item>, l1: int, r1: int, l2: int, r2: int)
    ensures |Number(items, l1, r1, true)| + TrapCount(items) == |Number(items, l2, r2, false)|
    decreases |items|
  {
    if items != [] {
      var it := items[0];
      if it.NoEol? {
        SeenLength(items[1..], l1, r1, l2, r2);
      } else {
        var kind := ItemKind(it);
        var l2', r2' := if kind.Add? then l2 else Increment(l2), if kind.Del? then r2 else Increment(r2);
        if Trapped(it) {
          SeenLength(items[1..], l1, r1, l2', r2');
        } else {
          SeenLength(items[1..], if kind.Add? then l1 else Increment(l1),
                     if kind.Del? then r1 else Increment(r1), l2', r2');
        }
      }
    }
  }

  lemma {:induction false} SeenIsAll(items: seq<Item>, left: int, right: int)
    requires !AnyTrapped(items)
    ensures Number(items, left, right, true) == Number(items, left, right, false)
    decreases |items|
  {
    if items != [] {
      var it := items[0];
      assert it in items;
      assert !AnyTrapped(items[1..]);
      if it.NoEol? {
        SeenIsAll(items[1..], left, right);
      } else {
        var kind := ItemKind(it);
        SeenIsAll(items[1..], if kind.Add? then left else Increment(left), if kind.Del? then right else Increment(right));
      }
    }
  }

  lemma HunkFaithful(lo: nat, ro: nat, items: seq<Item>, heading: string)
    ensures HunkAt(lo, ro, items, heading, true) == HunkAt(lo, ro, items, heading, false) <==> !AnyTrapped(items)
  {
    hide Number, HeaderAt;
    var l, r := First(lo, |OldItems(items)|), First(ro, |NewItems(items)|);
    SeenLength(items, l, r, l, r);
    TrapCountZero(items);
    if !AnyTrapped(items) {
      SeenIsAll(items, l, r);
    }
  }

  lemma {:induction false} HunksFaithful(lo: nat, ro: nat, segs: seq<Segment>)
    ensures HunksAt(lo, ro, segs, true) == HunksAt(lo, ro, segs, false) <==> !HasTrap(segs)
    decreases |segs|
  {
    hide HunkAt, AnyTrapped;
    if segs != [] {
      assert segs == [segs[0]] + segs[1..];
      match segs[0]
      case Skip(ls) => HunksFaithful(lo + |ls|, ro + |ls|, segs[1..]);
      case Change(items, heading) =>
        var lo', ro' := lo + |OldItems(items)|, ro + |NewItems(items)|;
        HunkFaithful(lo, ro, items, heading);
        HunksFaithful(lo', ro', segs[1..]);
        var a, b := HunksAt(lo, ro, segs, true), HunksAt(lo, ro, segs, false);
        assert a[0] == HunkAt(lo, ro, items, heading, true) && b[0] == HunkAt(lo, ro, items, heading, false);
        assert a[1..] == HunksAt(lo', ro', segs[1..], true) && b[1..] == HunksAt(lo', ro', segs[1..], false);
    }
  }

  // ---- Paths: faithful iff the name is plain ----

  /** Names git prints without quotes and without a trailing tab. */
  predicate Plain(name: string) {
    !NeedsQuotes(name) && ' ' !in name && name != "/dev/null"
  }

  function NameOf(fe: FileEdit): string {
    if fe.to.Some? then fe.to.value else if fe.from.Some? then fe.from.value else ""
  }

  lemma TrimExact(p: string, s: string)
    ensures TrimPrefix(p + s, p) == s
  {
    assert (p + s)[|p|..] == s;
  }

  /** What is left of a label once the side prefix is trimmed. */
  lemma LabelTrimmed(side: string, name: string)
    requires side == "a/" || side == "b/"
    ensures
      var p := TrimPrefix(Label(side, Some(name)), side);
      && (p == name <==> !NeedsQuotes(name) && ' ' !in name)
      && (p == "/dev/null" <==> name == "/dev/null")
  {
    hide NeedsQuotes, Escape;
    var printed := Label(side, Some(name));
    var tab := if ' ' in name then "\t" else "";
    if NeedsQuotes(name) {
      assert printed == "\"" + (side + Escape(name) + "\"" + tab);
      assert printed[0] == '"';
      assert |printed| > |name|;
      DevNullPlain();
    } else {
      assert printed == side + (name + tab);
      TrimExact(side, name + tab);
      if ' ' in name {
        assert (name + tab)[|name|] == '\t';
        assert "/dev/null"[|"/dev/null"| - 1] == 'l';
      }
      assert ' ' !in "/dev/null";
    }
  }

  lemma DevNullPlain()
    ensures !NeedsQuotes("/dev/null")
  {}

  lemma HeaderPathFaithful(fe: FileEdit)
    requires HasHunk(fe.segs) && NameOf(fe) != ""
    ensures HeaderPath(fe) == NameOf(fe) <==> Plain(NameOf(fe))
  {
    hide Label, Plain, NeedsQuotes;
    var a, b := Label("a/", fe.from), Label("b/", fe.to);
    TrimExact("--- ", a);
    TrimExact("+++ ", b);
    DevNullLabels();
    PlainMeans(NameOf(fe));
    if fe.from.Some? {
      LabelTrimmed("a/", fe.from.value);
    }
    if fe.to.Some? {
      LabelTrimmed("b/", fe.to.value);
    }
  }

  lemma PlainMeans(name: string)
    ensures Plain(name) <==> !NeedsQuotes(name) && ' ' !in name && name != "/dev/null"
  {}

  lemma DevNullLabels()
    ensures TrimPrefix(Label("a/", None), "a/") == TrimPrefix(Label("b/", None), "b/") == "/dev/null"
  {
    assert "/dev/null"[0] == '/';
  }

  lemma {:induction false} PathUntouched(path: string, items: seq<Item>)
    requires !AnyTrapped(items)
    ensures PathAfterItems(path, items) == path
    decreases |items|
  {
    if items != [] {
      assert items[0] in items;
      PathUntouched(path, items[1..]);
    }
  }

  lemma {:induction false} PathUntouchedBySegs(path: string, segs: seq<Segment>)
    requires !HasTrap(segs)
    ensures PathAfterSegs(path, segs) == path
    decreases |segs|
  {
    if segs != [] {
      assert segs[0] in segs;
      if segs[0].Change? {
        PathUntouched(path, segs[0].items);
      }
      PathUntouchedBySegs(path, segs[1..]);
    }
  }

  // ---- Whole diffs ----

  /** The file as the script means it: its name, and every printed line numbered. */
  function TrueFile(fe: FileEdit): FileDiff {
    var hunks := TrueHunks(fe);
    FileDiff(NameOf(fe), CountAll(hunks, Add), CountAll(hunks, Del), hunks)
  }

  /** No added text starts with "++ ", no deleted text with "-- ", there is a hunk to carry
      the names, and git prints the name bare. */
  predicate Readable(fe: FileEdit) {
    !HasTrap(fe.segs) && HasHunk(fe.segs) && Plain(NameOf(fe))
  }

  lemma FileFaithfulIff(fe: FileEdit)
    requires NameOf(fe) != ""
    ensures SeenHunks(fe) == TrueHunks(fe) <==> !HasTrap(fe.segs)
    ensures Recovered(fe) == TrueFile(fe) <==> Readable(fe)
  {
    hide HunksAt, CountAll, HasHunk, PathAfterSegs, Plain, NewSidePath, OldSidePath, Label;
    HunksFaithful(0, 0, fe.segs);
    if !HasTrap(fe.segs) {
      PathUntouchedBySegs(HeaderPath(fe), fe.segs);
    }
    if HasHunk(fe.segs) {
      HeaderPathFaithful(fe);
    }
  }

  function TrueFiles(edits: seq<FileEdit>): seq<FileDiff> {
    if edits == [] then [] else [TrueFile(edits[0])] + TrueFiles(edits[1..])
  }

  lemma {:induction false} AllFaithfulIff(edits: seq<FileEdit>)
    requires forall fe <- edits :: NameOf(fe) != ""
    ensures RecoveredAll(edits) == TrueFiles(edits) <==> forall fe <- edits :: Readable(fe)
  {
    hide Recovered, TrueFile, Readable, NameOf;
    if edits != [] {
      assert edits == [edits[0]] + edits[1..];
      FileFaithfulIff(edits[0]);
      AllFaithfulIff(edits[1..]);
      var a, b := RecoveredAll(edits), TrueFiles(edits);
      assert a[0] == Recovered(edits[0]) && b[0] == TrueFile(edits[0]);
      assert a[1..] == RecoveredAll(edits[1..]) && b[1..] == TrueFiles(edits[1..]);
    }
  }

  /** parseDiff reads git's output back exactly, names and hunks and numbers and counts,
      if and only if every file in it is readable. */
  lemma FaithfulIff(edits: seq<FileEdit>)
    requires forall fe <- edits :: Printable(fe) && NameOf(fe) != ""
    ensures Parse(GitText(edits)) == TrueFiles(edits) <==> forall fe <- edits :: Readable(fe)
  {
    hide Printable, Readable, NameOf, Parse, GitText;
    ParseGitText(edits);
    AllFaithfulIff(edits);
  }

  // ---- Applying recovered hunks ----

  function OldTexts(lines: seq<DiffLine>): seq<string> {
    if lines == [] then [] else (if lines[0].kind.Add? then [] else [lines[0].text]) + OldTexts(lines[1..])
  }

  function NewTexts(lines: seq<DiffLine>): seq<string> {
    if lines == [] then [] else (if lines[0].kind.Del? then [] else [lines[0].text]) + NewTexts(lines[1..])
  }

  /** The patch rule: at the header's left start (after that line, when the hunk has no old
      lines) the old texts must stand, and are replaced by the new ones. `pos` is how far
      the old file has been copied. */
  function ApplyHunks(base: seq<string>, pos: nat, hunks: seq<Hunk>): Option<seq<string>>
    requires pos <= |base|
    decreases |hunks|
  {
    if hunks == [] then Some(base[pos..])
    else match MatchHeader(hunks[0].header)
      case None => None
      case Some(m) =>
        var was := OldTexts(hunks[0].lines);
        var at := if was == [] then LeftStart(m) else LeftStart(m) - 1;
        if at < pos || at + |was| > |base| || base[at..at + |was|] != was then None
        else match ApplyHunks(base, at + |was|, hunks[1..])
          case None => None
          case Some(rest) => Some(base[pos..at] + NewTexts(hunks[0].lines) + rest)
  }

  lemma {:induction false} NumberTexts(items: seq<Item>, left: int, right: int)
    ensures OldTexts(Number(items, left, right, false)) == OldItems(items)
    ensures NewTexts(Number(items, left, right, false)) == NewItems(items)
    decreases |items|
  {
    if items != [] {
      if items[0].NoEol? {
        NumberTexts(items[1..], left, right);
      } else {
        var kind := ItemKind(items[0]);
        var l', r' := if kind.Add? then left else Increment(left), if kind.Del? then right else Increment(right);
        NumberTexts(items[1..], l', r');
        assert Number(items, left, right, false)[1..] == Number(items[1..], l', r', false);
      }
    }
  }

  lemma {:induction false} ApplySegs(base: seq<string>, pos: nat, lo: nat, ro: nat, segs: seq<Segment>)
    requires pos <= lo <= |base| && base[lo..] == OldLines(segs)
    requires lo + |OldLines(segs)| <= MAX_INT && ro + |NewLines(segs)| <= MAX_INT
    ensures ApplyHunks(base, pos, HunksAt(lo, ro, segs, false)) == Some(base[pos..lo] + NewLines(segs))
    decreases |segs|
  {
    hide MatchHeader, PrintHeader, Number, OldItems, NewItems, OldTexts, NewTexts, OldLines, NewLines, ApplyHunks, HeaderAt;
    NothingLeft(base, pos);
    if segs == [] {
      assert base[pos..] == base[pos..lo] + [];
    } else {
      SegsCons(segs);
      match segs[0]
      case Skip(ls) =>
        Cut(base, pos, lo, ls, OldLines(segs[1..]));
        ApplySegs(base, pos, lo + |ls|, ro + |ls|, segs[1..]);
        Regroup(base[pos..lo], ls, NewLines(segs[1..]));
      case Change(items, heading) =>
        var was, now, tail := OldItems(items), NewItems(items), NewLines(segs[1..]);
        Cut(base, pos, lo, was, OldLines(segs[1..]));
        ApplySegs(base, lo + |was|, lo + |was|, ro + |now|, segs[1..]);
        assert base[lo + |was|..lo + |was|] + tail == tail;
        HunkAtTexts(lo, ro, items, heading);
        ApplyOne(base, pos, lo, HunkAt(lo, ro, items, heading, false),
                 HunksAt(lo + |was|, ro + |now|, segs[1..], false), tail);
        Regroup(base[pos..lo], now, tail);
    }
  }

  lemma HunkAtTexts(lo: nat, ro: nat, items: seq<Item>, heading: string)
    requires lo + |OldItems(items)| <= MAX_INT && ro + |NewItems(items)| <= MAX_INT
    ensures
      var h := HunkAt(lo, ro, items, heading, false);
      && OldTexts(h.lines) == OldItems(items) && NewTexts(h.lines) == NewItems(items)
      && MatchHeader(h.header).Some?
      && LeftStart(MatchHeader(h.header).value) == First(lo, |OldItems(items)|)
      && RightStart(MatchHeader(h.header).value) == First(ro, |NewItems(items)|)
  {
    hide MatchHeader, PrintHeader, OldItems, NewItems, Number;
    PrintedStarts(lo, |OldItems(items)|, ro, |NewItems(items)|, heading);
    NumberTexts(items, First(lo, |OldItems(items)|), First(ro, |NewItems(items)|));
  }

  lemma Cut(s: seq<string>, pos: nat, lo: nat, a: seq<string>, b: seq<string>)
    requires pos <= lo <= |s| && s[lo..] == a + b
    ensures lo + |a| <= |s| && s[lo..lo + |a|] == a && s[lo + |a|..] == b
    ensures s[pos..lo + |a|] == s[pos..lo] + a
  {
    assert |a + b| == |a| + |b|;
    assert s[lo..lo + |a|] == s[lo..][..|a|];
    assert s[lo + |a|..] == s[lo..][|a|..];
  }

  lemma Regroup(a: seq<string>, b: seq<string>, c: seq<string>)
    ensures a + b + c == a + (b + c)
  {}

  lemma ApplyOne(base: seq<string>, pos: nat, at: nat, h: Hunk, rest: seq<Hunk>, tail: seq<string>)
    requires MatchHeader(h.header).Some?
    requires LeftStart(MatchHeader(h.header).value) == First(at, |OldTexts(h.lines)|)
    requires pos <= at && at + |OldTexts(h.lines)| <= |base|
    requires base[at..at + |OldTexts(h.lines)|] == OldTexts(h.lines)
    requires ApplyHunks(base, at + |OldTexts(h.lines)|, rest) == Some(tail)
    ensures ApplyHunks(base, pos, [h] + rest) == Some(base[pos..at] + NewTexts(h.lines) + tail)
  {
    hide MatchHeader, OldTexts, NewTexts;
    assert ([h] + rest)[1..] == rest;
  }

  lemma NothingLeft(base: seq<string>, pos: nat)
    requires pos <= |base|
    ensures OldLines([]) == NewLines([]) == []
    ensures ApplyHunks(base, pos, []) == Some(base[pos..])
  {}

  /** The hunks parsed from a printed script turn its old file into its new file. */
  lemma ParsedHunksRebuildNewFile(fe: FileEdit)
    requires Printable(fe) && !HasTrap(fe.segs)
    ensures |Parse(GitText([fe]))| == 1
    ensures ApplyHunks(OldLines(fe.segs), 0, Parse(GitText([fe]))[0].hunks) == Some(NewLines(fe.segs))
  {
    hide Parse, GitText, HunksAt, ApplyHunks, OldLines, NewLines;
    ParseGitText([fe]);
    assert RecoveredAll([fe]) == [Recovered(fe)] by {
      assert [fe][1..] == [];
    }
    HunksFaithful(0, 0, fe.segs);
    assert OldLines(fe.segs)[0..] == OldLines(fe.segs);
    ApplySegs(OldLines(fe.segs), 0, 0, 0, fe.segs);
    assert OldLines(fe.segs)[0..0] + NewLines(fe.segs) == NewLines(fe.segs);
  }

  lemma OneDeletion(text: string)
    requires HasPrefix(text, "-- ")
    ensures OldLines([Change([Remove(text)], "")]) == [text] && NewLines([Change([Remove(text)], "")]) == []
    ensures HunksAt(0, 0, [Change([Remove(text)], "")], true) == [Hunk(PrintHeader(0, 1, 0, 0, ""), [])]
  {
    hide PrintHeader;
    var items := [Remove(text)];
    var segs := [Change(items, "")];
    assert items[1..] == [] && segs[1..] == [] && Trapped(items[0]);
    NothingLeft([], 0);
    assert OldItems(items[1..]) == [] && NewItems(items[1..]) == [];
    assert OldItems(items) == [text] && NewItems(items) == [];
    assert OldItems(items) + [] == [text] && NewItems(items) + [] == [];
    SegsCons(segs);
    assert Number(items[1..], 1, 0, true) == [];
    assert HunkAt(0, 0, items, "", true).lines == [];
    assert HunkAt(0, 0, items, "", true).header == PrintHeader(0, 1, 0, 0, "");
  }

  lemma EmptyHunkApplies(base: seq<string>)
    ensures ApplyHunks(base, 0, [Hunk(PrintHeader(0, 1, 0, 0, ""), [])]) == Some(base)
      <==> base != []
  {
    hide PrintHeader, MatchHeader;
    PrintedStarts(0, 1, 0, 0, "");
    var h := Hunk(PrintHeader(0, 1, 0, 0, ""), []);
    assert [h][1..] == [] && OldTexts([]) == NewTexts([]) == [];
    if base != [] {
      assert base[1..1] == [] && base[..1] + [] + base[1..] == base;
    }
  }

  /** Deleting the only line of a file, when it starts with "-- ": the parser drops the
      line, and what it returns leaves the old file as it was. */
  lemma CommentDeletionIsLost(text: string)
    requires '\n' !in text && HasPrefix(text, "-- ")
    ensures
      var fe := FileEdit("a/q b/q", [], Some("q"), Some("q"), [Change([Remove(text)], "")]);
      && |Parse(GitText([fe]))| == 1
      && Parse(GitText([fe]))[0].hunks == [Hunk(PrintHeader(0, 1, 0, 0, ""), [])]
      && ApplyHunks([text], 0, Parse(GitText([fe]))[0].hunks) == Some([text])
  {
    hide PrintHeader, Parse, GitText, PathAfterSegs, HeaderPath, HunksAt, OldLines, NewLines, ApplyHunks;
    var fe := FileEdit("a/q b/q", [], Some("q"), Some("q"), [Change([Remove(text)], "")]);
    OneDeletion(text);
    EmptyHunkApplies([text]);
    assert CleanSeg(fe.segs[0]) && Printable(fe);
    ParseGitText([fe]);
    assert [fe][1..] == [];
  }
}
