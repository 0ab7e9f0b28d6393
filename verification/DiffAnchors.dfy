/**
 Line numbers of parsed diffs as the review UI uses them: `anchorFor` of
 web/app.bundle.js:7480-7491 turns a diff line into the (side, line) a comment hangs on.
 */
module DiffAnchors {
  import opened Wrappers
  import opened Text
  import opened Diff
  import opened DiffRender
  import opened DiffPatch
  import opened DiffFaithful

  datatype Side = Old | New

  datatype Anchor = Anchor(side: Side, line: int)

  function Negated(digits: string): int
    requires AllDigits(digits)
  {
    var n: int := Value(digits);
    -n
  }

  /** JavaScript's parseInt on a gutter string. */
  function ParseInt(s: string): Option<int> {
    if s != "" && AllDigits(s) then Some(Value(s))
    else if |s| > 1 && s[0] == '-' && AllDigits(s[1..]) then Some(Negated(s[1..]))
    else None
  }

  function AnchorFor(ln: DiffLine): Option<Anchor> {
    if ln.kind.Del? then
      match ParseInt(ln.left) case None => None case Some(n) => Some(Anchor(Old, n))
    else
      match ParseInt(ln.right) case None => None case Some(n) => Some(Anchor(New, n))
  }

  lemma ParsePrinted(n: int)
    ensures ParseInt(Itoa(n)) == Some(n)
  {
    if n < 0 {
      ValueDecimal(-n);
      hide Decimal, Value;
      assert Itoa(n)[1..] == Decimal(-n);
      assert Itoa(n)[0] == '-' && Itoa(n)[0] in Itoa(n);
    } else {
      ValueDecimal(n);
    }
  }

  /** Doubles are exact on integers up to here. */
  const MAX_SAFE: int := 0x1F_FFFF_FFFF_FFFF

  /** Where a hunk starts on each side, and where its lines end. */
  function LeftFrom(h: Hunk): int {
    match MatchHeader(h.header) case None => 0 case Some(m) => LeftStart(m)
  }

  function RightFrom(h: Hunk): int {
    match MatchHeader(h.header) case None => 0 case Some(m) => RightStart(m)
  }

  function LeftEnd(h: Hunk): int {
    LeftFrom(h) + LeftCount(h.lines)
  }

  function RightEnd(h: Hunk): int {
    RightFrom(h) + RightCount(h.lines)
  }

  ghost predicate Fits(h: Hunk) {
    LeftEnd(h) <= MAX_SAFE && RightEnd(h) <= MAX_SAFE
  }

  /** `b` starts after `a` ends, on each side where `b` has lines at all. */
  predicate Before(a: Hunk, b: Hunk) {
    && (LeftCount(b.lines) > 0 ==> LeftEnd(a) <= LeftFrom(b))
    && (RightCount(b.lines) > 0 ==> RightEnd(a) <= RightFrom(b))
  }

  ghost predicate Ordered(hunks: seq<Hunk>) {
    forall i: nat, j: nat | i < j < |hunks| :: Before(hunks[i], hunks[j])
  }

  lemma {:induction false} CountPrefix(lines: seq<DiffLine>, k: nat, m: nat, kind: Kind)
    requires k < m <= |lines|
    ensures Count(lines[..k], kind) + (if lines[k].kind == kind then 1 else 0) <= Count(lines[..m], kind)
  {
    assert lines[..m][..m - 1] == lines[..m - 1];
    if k < m - 1 {
      CountPrefix(lines, k, m - 1, kind);
    }
  }

  /** Where a line's anchor lies within its hunk. */
  lemma AnchorWithin(h: Hunk, k: nat)
    requires HunkShape(h) && Fits(h) && k < |h.lines|
    ensures AnchorFor(h.lines[k]) == Some(
      if h.lines[k].kind.Del? then Anchor(Old, LeftFrom(h) + LeftCount(h.lines[..k]))
      else Anchor(New, RightFrom(h) + RightCount(h.lines[..k])))
    ensures h.lines[k].kind.Del? ==> LeftCount(h.lines[..k]) < LeftCount(h.lines)
    ensures !h.lines[k].kind.Del? ==> RightCount(h.lines[..k]) < RightCount(h.lines)
  {
    hide MatchHeader, Advance, Count, ParseInt;
    var l, r := LeftFrom(h), RightFrom(h);
    assert NumberedAt(h.lines, l, r, k);
    assert h.lines[..|h.lines|] == h.lines;
    CountPrefix(h.lines, k, |h.lines|, Ctx);
    CountPrefix(h.lines, k, |h.lines|, Add);
    CountPrefix(h.lines, k, |h.lines|, Del);
    AdvanceExact(l, LeftCount(h.lines[..k]));
    AdvanceExact(r, RightCount(h.lines[..k]));
    ParsePrinted(l + LeftCount(h.lines[..k]));
    ParsePrinted(r + RightCount(h.lines[..k]));
  }

  lemma AnchorsDifferInHunk(h: Hunk, k: nat, m: nat)
    requires HunkShape(h) && Fits(h) && k < m < |h.lines|
    ensures AnchorFor(h.lines[k]) != AnchorFor(h.lines[m])
  {
    hide LeftFrom, RightFrom, Count, HunkShape, AnchorFor;
    AnchorWithin(h, k);
    AnchorWithin(h, m);
    CountPrefix(h.lines, k, m, Ctx);
    CountPrefix(h.lines, k, m, Add);
    CountPrefix(h.lines, k, m, Del);
  }

  /** In a file whose hunks are in order, two different diff lines never share an anchor. */
  lemma AnchorsDistinct(fd: FileDiff, i: nat, k: nat, j: nat, m: nat)
    requires FileShape(fd)
    requires forall h <- fd.hunks :: HunkShape(h) && Fits(h)
    requires Ordered(fd.hunks)
    requires i < |fd.hunks| && k < |fd.hunks[i].lines|
    requires j < |fd.hunks| && m < |fd.hunks[j].lines|
    ensures AnchorFor(fd.hunks[i].lines[k]).Some?
    ensures AnchorFor(fd.hunks[i].lines[k]) == AnchorFor(fd.hunks[j].lines[m]) <==> i == j && k == m
  {
    hide LeftFrom, RightFrom, Count, HunkShape, AnchorFor, CountAll;
    AnchorWithin(fd.hunks[i], k);
    AnchorWithin(fd.hunks[j], m);
    if i == j && k < m {
      AnchorsDifferInHunk(fd.hunks[i], k, m);
    } else if i == j && m < k {
      AnchorsDifferInHunk(fd.hunks[i], m, k);
    }
  }

  // ---- Printed diffs are in order ----

  /** Added texts the parser takes for file names, and deleted ones. */
  function TrappedInserts(items: seq<Item>): nat {
    if items == [] then 0
    else (if Trapped(items[0]) && items[0].Insert? then 1 else 0) + TrappedInserts(items[1..])
  }

  function TrappedRemoves(items: seq<Item>): nat {
    if items == [] then 0
    else (if Trapped(items[0]) && items[0].Remove? then 1 else 0) + TrappedRemoves(items[1..])
  }

  lemma {:induction false} NumberCounts(items: seq<Item>, left: int, right: int, seen: bool)
    ensures LeftCount(Number(items, left, right, seen)) + (if seen then TrappedRemoves(items) else 0) == |OldItems(items)|
    ensures RightCount(Number(items, left, right, seen)) + (if seen then TrappedInserts(items) else 0) == |NewItems(items)|
    decreases |items|
  {
    hide MakeLine;
    if items != [] {
      var it, rest := items[0], items[1..];
      if it.NoEol? || (seen && Trapped(it)) {
        NumberCounts(rest, left, right, seen);
      } else {
        var kind := ItemKind(it);
        var l', r' := if kind.Add? then left else Increment(left), if kind.Del? then right else Increment(right);
        var ln := MakeLine(kind, left, right, it.text);
        NumberCounts(rest, l', r', seen);
        CountsCons(ln, Number(rest, l', r', seen));
        MadeKind(kind, left, right, it.text);
      }
    }
  }

  lemma MadeKind(kind: Kind, left: int, right: int, text: string)
    ensures MakeLine(kind, left, right, text).kind == kind
  {}

  lemma CountsCons(ln: DiffLine, lines: seq<DiffLine>)
    ensures LeftCount([ln] + lines) == (if ln.kind.Add? then 0 else 1) + LeftCount(lines)
    ensures RightCount([ln] + lines) == (if ln.kind.Del? then 0 else 1) + RightCount(lines)
  {
    CountConcat([ln], lines, Ctx);
    CountConcat([ln], lines, Add);
    CountConcat([ln], lines, Del);
    assert [ln][..0] == [];
  }

  /** Every hunk printed from offsets (lo, ro) on lies there, and ends by the file's end. */
  predicate Placed(h: Hunk, lo: nat, ro: nat, loEnd: nat, roEnd: nat) {
    && (LeftCount(h.lines) > 0 ==> lo + 1 <= LeftFrom(h))
    && (RightCount(h.lines) > 0 ==> ro + 1 <= RightFrom(h))
    && LeftEnd(h) <= loEnd + 1
    && RightEnd(h) <= roEnd + 1
  }

  lemma HunkPlaced(lo: nat, ro: nat, items: seq<Item>, heading: string, seen: bool)
    requires lo + |OldItems(items)| <= MAX_INT && ro + |NewItems(items)| <= MAX_INT
    ensures Placed(HunkAt(lo, ro, items, heading, seen), lo, ro, lo + |OldItems(items)|, ro + |NewItems(items)|)
  {
    hide MatchHeader, PrintHeader, Number, OldItems, NewItems, Count;
    PrintedStarts(lo, |OldItems(items)|, ro, |NewItems(items)|, heading);
    NumberCounts(items, First(lo, |OldItems(items)|), First(ro, |NewItems(items)|), seen);
  }

  lemma {:induction false} SegsOrdered(lo: nat, ro: nat, segs: seq<Segment>, seen: bool)
    requires lo + |OldLines(segs)| <= MAX_INT && ro + |NewLines(segs)| <= MAX_INT
    ensures forall h <- HunksAt(lo, ro, segs, seen) ::
              Placed(h, lo, ro, lo + |OldLines(segs)|, ro + |NewLines(segs)|)
    ensures Ordered(HunksAt(lo, ro, segs, seen))
    decreases |segs|
  {
    hide HunkAt, OldItems, NewItems, OldLines, NewLines, LeftCount, RightCount, LeftFrom, RightFrom;
    if segs != [] {
      SegsCons(segs);
      match segs[0]
      case Skip(ls) => SegsOrdered(lo + |ls|, ro + |ls|, segs[1..], seen);
      case Change(items, heading) =>
        var lo', ro' := lo + |OldItems(items)|, ro + |NewItems(items)|;
        var h, rest := HunkAt(lo, ro, items, heading, seen), HunksAt(lo', ro', segs[1..], seen);
        HunkPlaced(lo, ro, items, heading, seen);
        SegsOrdered(lo', ro', segs[1..], seen);
        OrderedCons(h, rest, lo', ro', lo + |OldLines(segs)|, ro + |NewLines(segs)|);
    }
  }

  lemma OrderedCons(h: Hunk, rest: seq<Hunk>, lo: nat, ro: nat, loEnd: nat, roEnd: nat)
    requires LeftEnd(h) <= lo + 1 && RightEnd(h) <= ro + 1
    requires forall x <- rest :: Placed(x, lo, ro, loEnd, roEnd)
    requires Ordered(rest)
    ensures Ordered([h] + rest)
  {
    hide LeftCount, RightCount, LeftFrom, RightFrom;
    var all := [h] + rest;
    forall i: nat, j: nat | i < j < |all| ensures Before(all[i], all[j]) {
      assert all[j] == rest[j - 1] && rest[j - 1] in rest;
      if i > 0 {
        assert all[i] == rest[i - 1];
      }
    }
  }

  /** So for every diff git prints, readable or not, each anchor of the parsed file names
      at most one of its lines. */
  lemma PrintedAnchorsDistinct(fe: FileEdit, i: nat, k: nat, j: nat, m: nat)
    requires Printable(fe) && |OldLines(fe.segs)| < MAX_SAFE && |NewLines(fe.segs)| < MAX_SAFE
    requires |Parse(GitText([fe]))| == 1
    requires i < |Parse(GitText([fe]))[0].hunks| && k < |Parse(GitText([fe]))[0].hunks[i].lines|
    requires j < |Parse(GitText([fe]))[0].hunks| && m < |Parse(GitText([fe]))[0].hunks[j].lines|
    ensures
      var hunks := Parse(GitText([fe]))[0].hunks;
      && AnchorFor(hunks[i].lines[k]).Some?
      && (AnchorFor(hunks[i].lines[k]) == AnchorFor(hunks[j].lines[m]) <==> i == j && k == m)
  {
    hide Parse, GitText, HunksAt, LeftFrom, RightFrom, HunkShape, AnchorFor, OldLines, NewLines, Count, CountAll;
    ParsedShape(GitText([fe]));
    ParseGitText([fe]);
    assert [fe][1..] == [];
    var fd := Recovered(fe);
    assert RecoveredAll([fe]) == [fd];
    assert fd in Parse(GitText([fe]));
    SegsOrdered(0, 0, fe.segs, true);
    AnchorsDistinct(fd, i, k, j, m);
  }

  // ---- Net change ----

  /** A header range's line count: one when omitted. */
  function RangeCount(r: Range): int {
    if r.count.None? || !AllDigits(r.count.value) then 1 else Value(r.count.value)
  }

  function NetOfHeaders(hunks: seq<Hunk>): int {
    if hunks == [] then 0
    else
      (match MatchHeader(hunks[0].header)
       case None => 0
       case Some(m) => RangeCount(m.right) - RangeCount(m.left))
      + NetOfHeaders(hunks[1..])
  }

  lemma PrintedRangeCount(r: Range, count: nat)
    requires r.count == if count == 1 then None else Some(Decimal(count))
    ensures RangeCount(r) == count
  {
    ValueDecimal(count);
  }

  lemma NetOfCons(h: Hunk, rest: seq<Hunk>)
    ensures NetOfHeaders([h] + rest) == NetOfHeaders([h]) + NetOfHeaders(rest)
  {
    assert ([h] + rest)[1..] == rest && [h][1..] == [];
  }

  lemma NetOfNone()
    ensures NetOfHeaders([]) == 0
  {}

  lemma NetOfHunk(lo: nat, ro: nat, items: seq<Item>, heading: string, seen: bool)
    ensures NetOfHeaders([HunkAt(lo, ro, items, heading, seen)]) == |NewItems(items)| - |OldItems(items)|
  {
    hide PrintHeader, Number, OldItems, NewItems, RangeCount;
    var lc, rc := |OldItems(items)|, |NewItems(items)|;
    var h := HunkAt(lo, ro, items, heading, seen);
    MatchPrintedHeader(lo, lc, ro, rc, heading);
    PrintedRangeCount(HeaderOf(h).left, lc);
    PrintedRangeCount(HeaderOf(h).right, rc);
    NetOfCons(h, []);
    assert [h] + [] == [h];
  }

  /** Trapped inserts less trapped removes, over a whole script. */
  function TrapBalance(segs: seq<Segment>): int {
    if segs == [] then 0
    else
      (match segs[0]
       case Skip(_) => 0
       case Change(items, _) => TrappedInserts(items) - TrappedRemoves(items))
      + TrapBalance(segs[1..])
  }

  lemma {:induction false} NetOfSegs(lo: nat, ro: nat, segs: seq<Segment>)
    ensures
      var hunks := HunksAt(lo, ro, segs, true);
      && NetOfHeaders(hunks) == |NewLines(segs)| - |OldLines(segs)|
      && CountAll(hunks, Add) - CountAll(hunks, Del) == |NewLines(segs)| - |OldLines(segs)| - TrapBalance(segs)
    decreases |segs|
  {
    hide MatchHeader, PrintHeader, Number, OldItems, NewItems, OldLines, NewLines, Count, CountAll, RangeCount,
      NetOfHeaders, TrappedInserts, TrappedRemoves;
    assert NetOfHeaders([]) == 0 by { NetOfNone(); }
    NothingLeft([], 0);
    SegsEnd(START, lo, ro);
    if segs != [] {
      SegsCons(segs);
      match segs[0]
      case Skip(ls) => NetOfSegs(lo + |ls|, ro + |ls|, segs[1..]);
      case Change(items, heading) =>
        var lc, rc := |OldItems(items)|, |NewItems(items)|;
        var h, rest := HunkAt(lo, ro, items, heading, true), HunksAt(lo + lc, ro + rc, segs[1..], true);
        NetOfHunk(lo, ro, items, heading, true);
        NumberCounts(items, First(lo, lc), First(ro, rc), true);
        NetOfSegs(lo + lc, ro + rc, segs[1..]);
        JoinHunks([], h, rest);
        NetOfCons(h, rest);
    }
  }

  /** For every diff git prints, readable or not: the header count differences add up to the change
      in the file's length, and additions minus deletions is that sum exactly when as many added
      texts as deleted ones are taken for file names. */
  lemma NetChange(fe: FileEdit)
    requires Printable(fe)
    ensures |Parse(GitText([fe]))| == 1
    ensures
      var fd := Parse(GitText([fe]))[0];
      && NetOfHeaders(fd.hunks) == |NewLines(fe.segs)| - |OldLines(fe.segs)|
      && fd.additions - fd.deletions == NetOfHeaders(fd.hunks) - TrapBalance(fe.segs)
      && (fd.additions - fd.deletions == NetOfHeaders(fd.hunks) <==> TrapBalance(fe.segs) == 0)
  {
    hide Parse, GitText, HunksAt, OldLines, NewLines, CountAll, NetOfHeaders, TrapBalance;
    ParseGitText([fe]);
    assert [fe][1..] == [];
    assert RecoveredAll([fe]) == [Recovered(fe)];
    NetOfSegs(0, 0, fe.segs);
  }
}
