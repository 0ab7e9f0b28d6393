/**
 validRepoPath of internal/git/write.go: which paths a commit may name.
 The code runs a list of prefix, infix and suffix tests and then walks the
 "/"-separated segments; the predicate below says what all of that amounts to.
 */
module RepoPath {
  import opened Text

  predicate BadSegment(seg: string) {
    seg == "" || seg == "." || seg == ".."
  }

  /** A path the tree may hold: real segments only, and no NUL byte. */
  ghost predicate Admitted(p: string) {
    '\0' !in p && forall seg <- Split(p, '/') :: !BadSegment(seg)
  }

  method ValidRepoPath(p: string) returns (ok: bool)
    ensures ok <==> Admitted(p)
    ensures ok <==> '\0' !in p && forall seg <- Split(p, '/') :: seg != "" && seg != "." && seg != ".."
  {
    SplitAtom("", '/');
    if p == "" || '\0' in p {
      assert p == "" ==> BadSegment(Split(p, '/')[0]);
      return false;
    }
    if HasPrefix(p, "/") || HasPrefix(p, "../") || Contains(p, "/../") || HasSuffix(p, "/..") || p == ".." {
      EscapeHasBadSegment(p);
      return false;
    }
    var segs := Split(p, '/');
    for i := 0 to |segs|
      invariant forall j | 0 <= j < i :: !BadSegment(segs[j])
    {
      if segs[i] == "" || segs[i] == "." || segs[i] == ".." {
        assert BadSegment(segs[i]);
        return false;
      }
    }
    return true;
  }

  /** The string tests never reject a path that the segment walk would accept. */
  lemma EscapeHasBadSegment(p: string)
    requires HasPrefix(p, "/") || HasPrefix(p, "../") || Contains(p, "/../") || HasSuffix(p, "/..") || p == ".."
    ensures exists seg <- Split(p, '/') :: BadSegment(seg)
  {
    hide Split, Contains;
    if HasPrefix(p, "/") {
      SegmentIn(p, "", "", p);
    } else if HasPrefix(p, "../") {
      SegmentIn(p, "", "..", p[2..]);
    } else if Contains(p, "/../") {
      InnerEscape(p);
    } else if HasSuffix(p, "/..") {
      FinalEscape(p);
    } else {
      SegmentIn(p, "", "..", "");
    }
  }

  lemma InnerEscape(p: string)
    requires Contains(p, "/../")
    ensures ".." in Split(p, '/')
  {
    hide Split;
    var i :| 0 <= i <= |p| && "/../" <= p[i..];
    assert p[i..i + 4] == p[i..][..4] == "/../";
    SegmentIn(p, p[..i + 1], "..", p[i + 3..]);
  }

  lemma FinalEscape(p: string)
    requires HasSuffix(p, "/..")
    ensures ".." in Split(p, '/')
  {
    hide Split;
    var n := |p|;
    assert p[n - 3..] == "/..";
    assert p[n - 3] == '/' && p[n - 2..] == "..";
    SegmentIn(p, p[..n - 2], "..", "");
  }

  /** A segment at the start of a text, up to the first slash or the end. */
  lemma FirstSegment(seg: string, after: string)
    requires '/' !in seg
    requires after == "" || after[0] == '/'
    ensures Split(seg + after, '/')[0] == seg
  {
    hide Split;
    SplitAtom(seg, '/');
    if after == "" {
      assert seg + after == seg;
    } else {
      SplitConcat(seg, after[1..], '/');
      assert seg + after == seg + ['/'] + after[1..];
    }
  }

  /** What follows a slash keeps its segments. */
  lemma LaterSegments(before: string, rest: string, seg: string)
    requires before == "" || before[|before| - 1] == '/'
    requires seg in Split(rest, '/')
    ensures seg in Split(before + rest, '/')
  {
    hide Split;
    if before == "" {
      assert before + rest == rest;
    } else {
      var front := before[..|before| - 1];
      SplitConcat(front, rest, '/');
      assert before + rest == front + ['/'] + rest;
    }
  }

  /** Text between two slashes (or an end and a slash) is one of the segments. */
  lemma SegmentIn(p: string, before: string, seg: string, after: string)
    requires p == before + seg + after
    requires '/' !in seg
    requires before == "" || before[|before| - 1] == '/'
    requires after == "" || after[0] == '/'
    ensures seg in Split(p, '/')
  {
    hide Split;
    FirstSegment(seg, after);
    LaterSegments(before, seg + after, seg);
    assert p == before + (seg + after);
  }

  /** An admitted path is exactly the join of its segments: it has no leading,
      trailing or doubled slash, so distinct segment lists name distinct paths. */
  lemma AdmittedIsJoin(segs: seq<string>)
    requires segs != []
    requires forall seg <- segs :: '/' !in seg && '\0' !in seg
    ensures Admitted(Join(segs, '/')) <==> forall seg <- segs :: !BadSegment(seg)
  {
    SplitJoin(segs, '/');
    JoinLacks(segs, '/', '\0');
  }

  lemma {:induction false} JoinLacks(parts: seq<string>, sep: char, c: char)
    requires c != sep
    requires forall part <- parts :: c !in part
    ensures c !in Join(parts, sep)
  {
    if |parts| > 1 {
      JoinLacks(parts[1..], sep, c);
    }
  }
}
