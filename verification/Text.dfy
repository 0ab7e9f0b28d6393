/**
 Strings as the program uses them: a Go string is a sequence of bytes, and only
 ASCII bytes are ever compared against, so a `string` here stands for that sequence.
 Splitting, joining, prefix tests and decimal printing, with their inverses.
 */
module Text {

  // ---- Prefixes and substrings ----

  predicate HasPrefix(s: string, p: string) {
    p <= s
  }

  predicate HasSuffix(s: string, p: string) {
    |p| <= |s| && s[|s| - |p|..] == p
  }

  predicate Contains(s: string, p: string) {
    exists i | 0 <= i <= |s| :: p <= s[i..]
  }

  function TrimPrefix(s: string, p: string): string {
    if p <= s then s[|p|..] else s
  }

  // ---- strings.Split with a one-character separator, and strings.Join ----

  function Split(s: string, sep: char): (parts: seq<string>)
    ensures |parts| >= 1
  {
    if s == "" then [""]
    else
      var rest := Split(s[1..], sep);
      if s[0] == sep then [""] + rest else [[s[0]] + rest[0]] + rest[1..]
  }

  function Join(parts: seq<string>, sep: char): string {
    if |parts| == 0 then ""
    else if |parts| == 1 then parts[0]
    else parts[0] + [sep] + Join(parts[1..], sep)
  }

  lemma {:induction false} JoinSplit(s: string, sep: char)
    ensures Join(Split(s, sep), sep) == s
    ensures forall part <- Split(s, sep) :: sep !in part
  {
    if s != "" {
      JoinSplit(s[1..], sep);
      var rest := Split(s[1..], sep);
      if s[0] != sep && |rest| > 1 {
        assert Split(s, sep)[1..] == rest[1..];
      }
    }
  }

  lemma {:induction false} SplitAtom(s: string, sep: char)
    requires sep !in s
    ensures Split(s, sep) == [s]
  {
    if s != "" {
      SplitAtom(s[1..], sep);
      assert s == [s[0]] + s[1..];
    }
  }

  lemma SplitCons(c: char, t: string, sep: char)
    ensures Split([c] + t, sep) ==
      if c == sep then [""] + Split(t, sep) else [[c] + Split(t, sep)[0]] + Split(t, sep)[1..]
  {
    assert ([c] + t)[1..] == t;
  }

  lemma HeadThenRest(parts: seq<string>, more: seq<string>, c: char)
    requires parts != []
    ensures [[c] + (parts + more)[0]] + (parts + more)[1..] == [[c] + parts[0]] + parts[1..] + more
    ensures [""] + (parts + more) == [""] + parts + more
  {}

  /** A separator cuts the text, whatever is on either side of it. */
  lemma {:induction false} SplitConcat(a: string, b: string, sep: char)
    ensures Split(a + [sep] + b, sep) == Split(a, sep) + Split(b, sep)
  {
    hide Split;
    if a == "" {
      SplitAtom("", sep);
      SplitCons(sep, b, sep);
      assert a + [sep] + b == [sep] + b;
    } else {
      SplitCons(a[0], a[1..], sep);
      SplitCons(a[0], a[1..] + [sep] + b, sep);
      SplitConcat(a[1..], b, sep);
      assert a == [a[0]] + a[1..];
      assert a + [sep] + b == [a[0]] + (a[1..] + [sep] + b);
      HeadThenRest(Split(a[1..], sep), Split(b, sep), a[0]);
    }
  }

  lemma {:induction false} SplitJoin(parts: seq<string>, sep: char)
    requires parts != []
    requires forall part <- parts :: sep !in part
    ensures Split(Join(parts, sep), sep) == parts
  {
    SplitAtom(parts[0], sep);
    if |parts| > 1 {
      SplitJoin(parts[1..], sep);
      SplitConcat(parts[0], Join(parts[1..], sep), sep);
      assert parts == [parts[0]] + parts[1..];
    }
  }

  // ---- Lines ----

  /** Every line followed by a newline, as a string builder writes them. */
  function Unlines(lines: seq<string>): string {
    if lines == [] then "" else lines[0] + "\n" + Unlines(lines[1..])
  }

  lemma {:induction false} UnlinesConcat(a: seq<string>, b: seq<string>)
    ensures Unlines(a + b) == Unlines(a) + Unlines(b)
  {
    if a == [] {
      assert a + b == b;
    } else {
      UnlinesConcat(a[1..], b);
      assert (a + b)[1..] == a[1..] + b;
    }
  }

  ghost predicate NoNewline(lines: seq<string>) {
    forall ln <- lines :: '\n' !in ln
  }

  lemma {:induction false} SplitUnlines(lines: seq<string>)
    requires NoNewline(lines)
    ensures Split(Unlines(lines), '\n') == lines + [""]
  {
    if lines != [] {
      SplitUnlines(lines[1..]);
      SplitConcat(lines[0], Unlines(lines[1..]), '\n');
      SplitAtom(lines[0], '\n');
      assert Unlines(lines) == lines[0] + ['\n'] + Unlines(lines[1..]);
    }
  }

  // ---- White space, here over code points ----

  /** unicode.IsSpace */
  predicate IsSpace(c: char) {
    || c == ' ' || '\t' <= c <= '\r' || c == '\U{0085}' || c == '\U{00A0}' || c == '\U{1680}'
    || '\U{2000}' <= c <= '\U{200A}' || c == '\U{2028}' || c == '\U{2029}' || c == '\U{202F}'
    || c == '\U{205F}' || c == '\U{3000}'
  }

  /** On ASCII these are the six usual ones. */
  lemma AsciiSpace(c: char)
    requires c < '\U{0080}'
    ensures IsSpace(c) <==> c in " \t\n\U{000B}\U{000C}\r"
  {}

  predicate IsBlank(s: string) {
    forall c <- s :: IsSpace(c)
  }

  /** strings.TrimSpace */
  function TrimSpace(s: string): (t: string)
    ensures t == "" <==> IsBlank(s)
    ensures t != "" ==> !IsSpace(t[0]) && !IsSpace(t[|t| - 1])
  {
    if s == "" then ""
    else if IsSpace(s[0]) then
      assert s == [s[0]] + s[1..];
      TrimSpace(s[1..])
    else if IsSpace(s[|s| - 1]) then
      assert s == s[..|s| - 1] + [s[|s| - 1]];
      TrimSpace(s[..|s| - 1])
    else
      assert s[0] in s;
      s
  }

  lemma BlankGrows(s: string, c: char)
    requires IsBlank(s) && IsSpace(c)
    ensures IsBlank([c] + s) && IsBlank(s + [c])
  {}

  lemma BlankEmpty()
    ensures IsBlank("") && TrimSpace("") == ""
  {}

  lemma TrimStep(s: string)
    requires s != ""
    ensures TrimSpace(s) ==
      if IsSpace(s[0]) then TrimSpace(s[1..]) else if IsSpace(s[|s| - 1]) then TrimSpace(s[..|s| - 1]) else s
  {}

  lemma Around(a: string, b: string, d: string, c: char)
    ensures [c] + (a + b + d) == ([c] + a) + b + d
    ensures (a + b + d) + [c] == a + b + (d + [c])
  {}

  /** Only blanks are trimmed, and only at the ends. */
  lemma {:induction false} TrimmedWhole(s: string) returns (before: string, after: string)
    ensures s == before + TrimSpace(s) + after && IsBlank(before) && IsBlank(after)
    decreases |s|
  {
    hide IsBlank, IsSpace, TrimSpace;
    BlankEmpty();
    if s != "" {
      TrimStep(s);
    }
    if s == "" || (!IsSpace(s[0]) && !IsSpace(s[|s| - 1])) {
      before, after := "", "";
    } else if IsSpace(s[0]) {
      before, after := TrimmedWhole(s[1..]);
      BlankGrows(before, s[0]);
      assert s == [s[0]] + s[1..];
      Around(before, TrimSpace(s), after, s[0]);
      before := [s[0]] + before;
    } else {
      before, after := TrimmedWhole(s[..|s| - 1]);
      BlankGrows(after, s[|s| - 1]);
      assert s == s[..|s| - 1] + [s[|s| - 1]];
      Around(before, TrimSpace(s), after, s[|s| - 1]);
      after := after + [s[|s| - 1]];
    }
  }

  // ---- Decimal numbers ----

  /** Go's int has 64 bits; its least value is -MAX_INT - 1. */
  const MAX_INT: int := 0x7FFF_FFFF_FFFF_FFFF

  predicate IsDigit(c: char) {
    '0' <= c <= '9'
  }

  predicate AllDigits(s: string) {
    forall c <- s :: IsDigit(c)
  }

  function Digit(d: nat): (c: char)
    requires d < 10
    ensures IsDigit(c) && c as int - '0' as int == d
  {
    '0' + d as char
  }

  function Decimal(n: nat): (s: string)
    ensures AllDigits(s) && |s| >= 1
  {
    if n < 10 then [Digit(n)] else Decimal(n / 10) + [Digit(n % 10)]
  }

  function Value(s: string): (n: nat)
    requires AllDigits(s)
  {
    if s == "" then 0
    else
      assert IsDigit(s[|s| - 1]);
      Value(s[..|s| - 1]) * 10 + (s[|s| - 1] as int - '0' as int)
  }

  /** strconv.Itoa on any int. */
  function Itoa(n: int): string {
    if n < 0 then "-" + Decimal(-n) else Decimal(n)
  }

  lemma {:induction false} ValueDecimal(n: nat)
    ensures Value(Decimal(n)) == n
  {
    if n < 10 {
      assert Value(Decimal(n)[..0]) == 0;
    } else {
      ValueDecimal(n / 10);
      assert Decimal(n)[..|Decimal(n)| - 1] == Decimal(n / 10);
    }
  }

  lemma DecimalInjective(m: nat, n: nat)
    ensures Decimal(m) == Decimal(n) <==> m == n
  {
    ValueDecimal(m);
    ValueDecimal(n);
  }

  /** The printed form has no leading zero, so it is the canonical decimal form. */
  lemma {:induction false} DecimalCanonical(n: nat)
    ensures Decimal(n)[0] == '0' <==> n == 0
  {
    if n >= 10 {
      DecimalCanonical(n / 10);
    }
  }

  function Pow10(k: nat): nat {
    if k == 0 then 1 else 10 * Pow10(k - 1)
  }

  lemma IntFits()
    ensures MAX_INT < Pow10(19)
  {
    assert Pow10(5) == 100_000;
    assert Pow10(10) == 10_000_000_000;
    assert Pow10(15) == 1_000_000_000_000_000;
  }

  /** A number below a power of ten has no more digits than its exponent. */
  lemma {:induction false} DecimalLength(n: nat, k: nat)
    requires k >= 1 && n < Pow10(k)
    ensures |Decimal(n)| <= k
  {
    if n >= 10 {
      DecimalLength(n / 10, k - 1);
    }
  }
}
