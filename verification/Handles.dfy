/**
 Handle allocation of internal/auth: `itoa` filling its 20-byte buffer backwards,
 `uniqueHandle` trying 999 candidates against the user table, and `sanitizeHandle`.
 Handles are compared as SQLite's NOCASE does, folding ASCII letters only.
 */
module Handles {
  import opened Wrappers
  import opened Text

  // ---- itoa ----

  /** The digits still to be written. */
  function Leading(i: nat): string {
    if i == 0 then "" else Decimal(i)
  }

  lemma LeadingStep(i: nat, tail: string)
    requires i > 0
    ensures Leading(i) + tail == Leading(i / 10) + ([Digit(i % 10)] + tail)
  {}

  lemma LeadingEnds(n: nat)
    ensures Leading(0) == "" && Decimal(0) == "0" && (n > 0 ==> Leading(n) == Decimal(n))
  {}

  /** On any int of the machine the buffer is never underrun; a negative number prints as
      nothing, any other in canonical decimal. */
  method Itoa(n: int) returns (s: string)
    requires -MAX_INT - 1 <= n <= MAX_INT
    ensures s == if n < 0 then "" else Decimal(n)
  {
    hide Decimal, Leading;
    LeadingEnds(if n < 0 then 0 else n);
    if n == 0 {
      return "0";
    }
    var b := new char[20];
    var p := b.Length;
    var i := n;
    IntFits();
    while i > 0
      invariant 0 <= p <= b.Length
      invariant i > 0 ==> p >= 1 && i < Pow10(p - 1)
      invariant n < 0 ==> p == 20 && i == n
      invariant n > 0 ==> i >= 0 && Decimal(n) == Leading(i) + b[p..]
    {
      ghost var tail := b[p..];
      LeadingStep(i, tail);
      p := p - 1;
      b[p] := '0' + (i % 10) as char;
      assert b[p..] == [Digit(i % 10)] + tail;
      i := i / 10;
    }
    s := b[p..];
  }

  // ---- Case folding and candidates ----

  function FoldChar(c: char): char {
    if 'A' <= c <= 'Z' then (c as int + 32) as char else c
  }

  /** The NOCASE key of a handle or an email. */
  function Fold(s: string): (t: string)
    ensures |t| == |s|
  {
    if s == "" then "" else [FoldChar(s[0])] + Fold(s[1..])
  }

  lemma FoldCons(c: char, t: string)
    ensures Fold([c] + t) == [FoldChar(c)] + Fold(t)
  {
    assert ([c] + t)[1..] == t;
  }

  lemma {:induction false} FoldConcat(a: string, b: string)
    ensures Fold(a + b) == Fold(a) + Fold(b)
  {
    if a == "" {
      assert a + b == b;
    } else {
      hide Fold;
      FoldCons(a[0], a[1..]);
      FoldCons(a[0], a[1..] + b);
      FoldConcat(a[1..], b);
      assert a == [a[0]] + a[1..];
      assert a + b == [a[0]] + (a[1..] + b);
    }
  }

  lemma {:induction false} FoldDigits(s: string)
    requires AllDigits(s)
    ensures Fold(s) == s
  {
    if s != "" {
      assert IsDigit(s[0]);
      FoldDigits(s[1..]);
      assert s == [s[0]] + s[1..];
    }
  }

  const ATTEMPTS: nat := 999

  function Candidate(base: string, k: nat): string {
    if k == 0 then base else base + "-" + Decimal(k)
  }

  predicate Taken(handles: seq<string>, handle: string) {
    exists h <- handles :: Fold(h) == Fold(handle)
  }

  lemma CandidatesDistinct(base: string, j: nat, k: nat)
    requires j != k
    ensures Fold(Candidate(base, j)) != Fold(Candidate(base, k))
  {
    FoldCandidate(base, j);
    FoldCandidate(base, k);
    DecimalInjective(j, k);
    AppendInjective(Fold(base) + "-", Decimal(j), Decimal(k));
  }

  lemma AppendInjective(a: string, b: string, c: string)
    ensures a + b == a + c <==> b == c
  {
    assert (a + b)[|a|..] == b && (a + c)[|a|..] == c;
  }

  lemma FoldCandidate(base: string, k: nat)
    ensures Fold(Candidate(base, k)) == if k == 0 then Fold(base) else Fold(base) + "-" + Decimal(k)
  {
    assert Fold("-") == "-";
    hide Fold, Decimal;
    if k > 0 {
      FoldConcat(base + "-", Decimal(k));
      FoldConcat(base, "-");
      FoldDigits(Decimal(k));
    }
  }

  // ---- uniqueHandle ----

  function BaseOf(base: string): string {
    if base == "" then "user" else base
  }

  /** The first free candidate of the 999; an error only when all of them are taken. */
  ghost predicate Allocates(handles: seq<string>, base: string, r: Result<string, string>) {
    match r
    case Ok(handle) => exists k: nat | k < ATTEMPTS ::
      && handle == Candidate(BaseOf(base), k) && !Taken(handles, handle)
      && forall j: nat | j < k :: Taken(handles, Candidate(BaseOf(base), j))
    case Err(_) => forall k: nat | k < ATTEMPTS :: Taken(handles, Candidate(BaseOf(base), k))
  }

  function FirstFree(handles: seq<string>, base: string, k: nat): Result<string, string>
    decreases ATTEMPTS - k
  {
    if k >= ATTEMPTS then Err("could not allocate unique handle")
    else if !Taken(handles, Candidate(base, k)) then Ok(Candidate(base, k))
    else FirstFree(handles, base, k + 1)
  }

  /** What uniqueHandle returns on a table with these handles. */
  function Allocated(handles: seq<string>, base: string): Result<string, string> {
    FirstFree(handles, BaseOf(base), 0)
  }

  method CountHandles(handles: seq<string>, handle: string) returns (n: nat)
    ensures n > 0 <==> Taken(handles, handle)
  {
    n := 0;
    for i := 0 to |handles|
      invariant n > 0 <==> exists j: nat | j < i :: Fold(handles[j]) == Fold(handle)
    {
      if Fold(handles[i]) == Fold(handle) {
        n := n + 1;
      }
    }
  }

  method UniqueHandle(handles: seq<string>, base0: string) returns (r: Result<string, string>)
    ensures r == Allocated(handles, base0) && Allocates(handles, base0, r)
    ensures r.Ok? ==> (if base0 == "" then "user" else base0) <= r.value
  {
    hide Taken;
    var base := if base0 == "" then "user" else base0;
    var candidate := base;
    var i := 1;
    while i < 1000
      invariant 1 <= i <= 1000
      invariant candidate == Candidate(base, i - 1)
      invariant forall k: nat | k < i - 1 :: Taken(handles, Candidate(base, k))
      invariant FirstFree(handles, base, 0) == FirstFree(handles, base, i - 1)
    {
      var n := CountHandles(handles, candidate);
      if n == 0 {
        return Ok(candidate);
      }
      var digits := Itoa(i);
      candidate := base + "-" + digits;
      i := i + 1;
    }
    r := Err("could not allocate unique handle");
  }

  lemma {:induction false} FirstFreeAllocates(handles: seq<string>, base: string, k: nat)
    requires k <= ATTEMPTS && forall j: nat | j < k :: Taken(handles, Candidate(BaseOf(base), j))
    ensures Allocates(handles, base, FirstFree(handles, BaseOf(base), k))
    decreases ATTEMPTS - k
  {
    hide Taken, Candidate;
    if k < ATTEMPTS {
      if Taken(handles, Candidate(BaseOf(base), k)) {
        FirstFreeAllocates(handles, base, k + 1);
      } else {
        assert FirstFree(handles, BaseOf(base), k) == Ok(Candidate(BaseOf(base), k));
      }
    }
  }

  ghost function Wanted(base: string, n: nat): set<string> {
    set k: nat | k < n :: Fold(Candidate(base, k))
  }

  ghost function Keys(handles: seq<string>): set<string> {
    set h <- handles :: Fold(h)
  }

  /** n handles can take at most n of the candidates, which are pairwise distinct. */
  lemma Pigeonhole(handles: seq<string>, base: string, n: nat)
    requires forall k: nat | k < n :: Taken(handles, Candidate(base, k))
    ensures n <= |handles|
  {
    forall f | f in Wanted(base, n) ensures f in Keys(handles) {
      var k: nat :| k < n && f == Fold(Candidate(base, k));
      assert Taken(handles, Candidate(base, k));
    }
    CandidateCount(base, n);
    KeyCount(handles);
    SubsetSize(Wanted(base, n), Keys(handles));
  }

  lemma SubsetSize<T>(a: set<T>, b: set<T>)
    requires a <= b
    ensures |a| <= |b|
  {
    assert b == a + (b - a);
  }

  lemma {:induction false} CandidateCount(base: string, n: nat)
    ensures |Wanted(base, n)| == n
  {
    hide Fold, Candidate;
    if n > 0 {
      CandidateCount(base, n - 1);
      WantedGrows(base, n - 1);
    } else {
      assert Wanted(base, n) == {};
    }
  }

  lemma WantedGrows(base: string, n: nat)
    ensures Wanted(base, n + 1) == Wanted(base, n) + {Fold(Candidate(base, n))}
    ensures Fold(Candidate(base, n)) !in Wanted(base, n)
  {
    hide Fold, Candidate;
    forall k: nat | k < n ensures Fold(Candidate(base, k)) != Fold(Candidate(base, n)) {
      CandidatesDistinct(base, k, n);
    }
    assert Wanted(base, n + 1) == Wanted(base, n) + {Fold(Candidate(base, n))};
  }

  lemma {:induction false} KeyCount(handles: seq<string>)
    ensures |Keys(handles)| <= |handles|
  {
    if handles != [] {
      KeyCount(handles[1..]);
      assert handles == [handles[0]] + handles[1..];
      assert Keys(handles) == Keys(handles[1..]) + {Fold(handles[0])};
    }
  }

  /** With fewer than 999 users there is always a handle, and it is unused. */
  lemma AllocationSucceeds(handles: seq<string>, base: string)
    ensures Allocates(handles, base, Allocated(handles, base))
    ensures |handles| < 999 ==> Allocated(handles, base).Ok?
    ensures Allocated(handles, base).Ok? ==> !Taken(handles, Allocated(handles, base).value)
  {
    hide FirstFree, Taken, Candidate;
    FirstFreeAllocates(handles, base, 0);
    if Allocated(handles, base).Err? {
      Pigeonhole(handles, BaseOf(base), ATTEMPTS);
    }
  }

  /** 999 is the best bound: for every base, the 999 candidates themselves exhaust it. */
  lemma AllocationBoundTight(base: string)
    ensures
      var handles := seq(ATTEMPTS, k requires k >= 0 => Candidate(BaseOf(base), k));
      |handles| == 999 && Allocated(handles, base).Err?
  {
    var handles := seq(ATTEMPTS, k requires k >= 0 => Candidate(BaseOf(base), k));
    forall k: nat | k < ATTEMPTS ensures Taken(handles, Candidate(BaseOf(base), k)) {
      assert handles[k] in handles;
    }
    FirstFreeAllocates(handles, base, 0);
  }

  // ---- sanitizeHandle ----

  /** unicode.ToLower: any mapping of code points that does to ASCII what it should. */
  type Lowering = f: char -> char | forall c: char :: c < '\U{0080}' ==> f(c) == FoldChar(c) witness (c: char) => FoldChar(c)

  /** strings.ToLower */
  function ToLower(s: string, low: Lowering): (t: string)
    ensures |t| == |s| && forall i | 0 <= i < |s| :: t[i] == low(s[i])
  {
    seq(|s|, i requires 0 <= i < |s| => low(s[i]))
  }

  predicate InHandle(c: char) {
    'a' <= c <= 'z' || IsDigit(c) || c == '-' || c == '_' || c == '.'
  }

  function Filtered(s: string): string {
    if s == "" then "" else Filtered(s[..|s| - 1]) + (if InHandle(s[|s| - 1]) then [s[|s| - 1]] else "")
  }

  function Sanitized(s: string, low: Lowering): string {
    var kept := Filtered(ToLower(TrimSpace(s), low));
    if kept == "" then "user" else kept
  }

  method SanitizeHandle(s0: string, low: Lowering) returns (out: string)
    ensures out == Sanitized(s0, low)
    ensures
      var kept := Filtered(ToLower(TrimSpace(s0), low));
      out == if kept != "" then kept else "user"
  {
    var s := ToLower(TrimSpace(s0), low);
    out := "";
    for i := 0 to |s|
      invariant out == Filtered(s[..i])
    {
      assert s[..i + 1][..i] == s[..i];
      if InHandle(s[i]) {
        out := out + [s[i]];
      }
    }
    assert s[..|s|] == s;
    if out == "" {
      out := "user";
    }
  }

  predicate CleanHandle(s: string) {
    s != "" && forall c <- s :: InHandle(c)
  }

  lemma {:induction false} FilteredClean(s: string)
    ensures forall c <- Filtered(s) :: InHandle(c)
    ensures (forall c <- s :: InHandle(c)) ==> Filtered(s) == s
  {
    if s != "" {
      FilteredClean(s[..|s| - 1]);
      assert s == s[..|s| - 1] + [s[|s| - 1]];
    }
  }

  /** Each character is kept or dropped on its own, wherever it stands. */
  lemma {:induction false} FilteredConcat(a: string, b: string)
    ensures Filtered(a + b) == Filtered(a) + Filtered(b)
    decreases |b|
  {
    if b == "" {
      assert a + b == a;
    } else {
      var n := |b| - 1;
      assert (a + b)[..|a + b| - 1] == a + b[..n];
      FilteredConcat(a, b[..n]);
    }
  }

  lemma FilteredChar(c: char)
    ensures Filtered([c]) == if 'a' <= c <= 'z' || '0' <= c <= '9' || c in "-_." then [c] else ""
  {
    assert [c][..0] == "" && Filtered("") == "";
  }

  /** What comes out is a clean handle, its own NOCASE key; a clean handle comes out unchanged. */
  lemma SanitizedClean(s: string, low: Lowering)
    ensures CleanHandle(Sanitized(s, low))
    ensures Fold(Sanitized(s, low)) == Sanitized(s, low)
    ensures Sanitized(s, low) == s <==> CleanHandle(s)
    ensures Sanitized(Sanitized(s, low), low) == Sanitized(s, low)
  {
    FilteredClean(ToLower(TrimSpace(s), low));
    CleanStays(Sanitized(s, low), low);
    if CleanHandle(s) {
      CleanStays(s, low);
    }
  }

  lemma CleanStays(s: string, low: Lowering)
    requires CleanHandle(s)
    ensures Sanitized(s, low) == s && Fold(s) == s
  {
    assert s[0] in s && s[|s| - 1] in s;
    assert TrimSpace(s) == s;
    forall i | 0 <= i < |s| ensures low(s[i]) == s[i] {
      assert s[i] in s && InHandle(s[i]);
      assert s[i] < '\U{0080}';
    }
    assert ToLower(s, low) == s;
    FilteredClean(s);
    FoldClean(s);
  }

  lemma {:induction false} FoldClean(s: string)
    requires forall c <- s :: InHandle(c)
    ensures Fold(s) == s
  {
    if s != "" {
      assert InHandle(s[0]);
      FoldClean(s[1..]);
      assert s == [s[0]] + s[1..];
    }
  }
}
