/** The Kotlin standard-library string operations the core relies on:
    `Char.isWhitespace`, `String.trim`, `String.toInt`, `indexOf`,
    `split`, `joinToString`, `substringBefore` and `substringAfter`. */
module Text {
  import opened Results

  /** Kotlin's `Char.isWhitespace` on the JVM: `Character.isWhitespace` or
      `Character.isSpaceChar` (the ASCII controls TAB..CR and FS..US, and the
      Unicode space, line and paragraph separators). */
  predicate IsWhitespace(c: char) {
    || '\t' <= c <= '\r'
    || '\U{1C}' <= c <= '\U{1F}'
    || c == ' '
    || c == '\U{A0}'
    || c == '\U{1680}'
    || '\U{2000}' <= c <= '\U{200A}'
    || c == '\U{2028}'
    || c == '\U{2029}'
    || c == '\U{202F}'
    || c == '\U{205F}'
    || c == '\U{3000}'
  }

  predicate AllWhitespace(s: string) {
    forall k :: 0 <= k < |s| ==> IsWhitespace(s[k])
  }

  /** `s` neither starts nor ends with whitespace. */
  predicate Trimmed(s: string) {
    |s| == 0 || (!IsWhitespace(s[0]) && !IsWhitespace(s[|s| - 1]))
  }

  /** Drops leading whitespace: what is dropped is all whitespace, and what is
      kept does not start with whitespace. */
  function TrimStart(s: string): (r: string)
    ensures |r| <= |s| && r == s[|s| - |r|..]
    ensures AllWhitespace(s[..|s| - |r|])
    ensures |r| == 0 || !IsWhitespace(r[0])
  {
    if |s| > 0 && IsWhitespace(s[0]) then TrimStart(s[1..]) else s
  }

  /** Drops trailing whitespace: what is dropped is all whitespace, and what is
      kept does not end with whitespace. */
  function TrimEnd(s: string): (r: string)
    ensures |r| <= |s| && r == s[..|r|]
    ensures AllWhitespace(s[|r|..])
    ensures |r| == 0 || !IsWhitespace(r[|r| - 1])
  {
    if |s| > 0 && IsWhitespace(s[|s| - 1]) then TrimEnd(s[..|s| - 1]) else s
  }

  /** `r` is what remains of `s` after cutting `i` whitespace characters from
      the front and only whitespace from the back. */
  predicate WhitespaceCut(s: string, r: string, i: nat) {
    && i + |r| <= |s|
    && s[i..i + |r|] == r
    && AllWhitespace(s[..i])
    && AllWhitespace(s[i + |r|..])
  }

  /** Kotlin's `String.trim()`: the infix of `s` left after cutting whitespace
      from both ends until neither end is whitespace. */
  function Trim(s: string): (r: string)
    ensures Trimmed(r)
    ensures WhitespaceCut(s, r, |s| - |TrimStart(s)|)
  {
    TrimCut(s);
    TrimEnd(TrimStart(s))
  }

  /** Cutting whitespace from the front and then from the back of what is
      left is one `WhitespaceCut`. */
  lemma CutCompose(s: string, t: string, r: string, i: nat)
    requires i + |t| == |s| && s[i..] == t && AllWhitespace(s[..i])
    requires |r| <= |t| && r == t[..|r|] && AllWhitespace(t[|r|..])
    ensures WhitespaceCut(s, r, i)
  {
    assert s[i..i + |r|] == r;
    assert s[i + |r|..] == t[|r|..];
  }

  lemma TrimCut(s: string)
    ensures Trimmed(TrimEnd(TrimStart(s)))
    ensures WhitespaceCut(s, TrimEnd(TrimStart(s)), |s| - |TrimStart(s)|)
  {
    var t := TrimStart(s);
    var r := TrimEnd(t);
    CutCompose(s, t, r, |s| - |t|);
    assert |r| > 0 ==> r[0] == t[0];
  }

  /** Trimming a string that is already trimmed changes nothing. */
  lemma TrimOfTrimmed(s: string)
    requires Trimmed(s)
    ensures Trim(s) == s
  {
  }

  /** `trim` is idempotent. */
  lemma TrimIdempotent(s: string)
    ensures Trim(Trim(s)) == Trim(s)
  {
    TrimOfTrimmed(Trim(s));
  }

  // ---------------------------------------------------------------- integers

  const IntMin: int := -0x8000_0000
  const IntMax: int := 0x7FFF_FFFF

  /** Kotlin's `Int`. */
  type Int32 = x: int | IntMin <= x <= IntMax

  predicate IsDigit(c: char) {
    '0' <= c <= '9'
  }

  predicate AllDigits(s: string) {
    forall k :: 0 <= k < |s| ==> IsDigit(s[k])
  }

  function DigitValue(c: char): nat
    requires IsDigit(c)
  {
    c as int - '0' as int
  }

  /** The value of a decimal digit string, read most significant digit first. */
  function DigitsValue(s: string): nat
    requires AllDigits(s)
  {
    if |s| == 0 then 0 else DigitsValue(s[..|s| - 1]) * 10 + DigitValue(s[|s| - 1])
  }

  /** The digits after an optional leading `+` or `-`. */
  function Unsigned(s: string): string
    requires |s| > 0
  {
    if s[0] == '-' || s[0] == '+' then s[1..] else s
  }

  /** Kotlin's `String.toInt()` in radix 10: an optional sign and at least one
      digit, whose value must fit in an `Int`; `None` stands for the
      `NumberFormatException` it throws otherwise. */
  function ParseInt(s: string): (r: Option<Int32>)
    ensures r.Some? <==>
      && |s| > 0
      && |Unsigned(s)| > 0
      && AllDigits(Unsigned(s))
      && IntMin <= (if s[0] == '-' then 0 - DigitsValue(Unsigned(s)) else DigitsValue(Unsigned(s))) <= IntMax
    ensures r.Some? && s[0] == '-' ==> r.value == 0 - DigitsValue(Unsigned(s))
    ensures r.Some? && s[0] != '-' ==> r.value == DigitsValue(Unsigned(s))
  {
    if |s| == 0 then None
    else
      var digits := Unsigned(s);
      if |digits| == 0 || !AllDigits(digits) then None
      else
        var v: int := if s[0] == '-' then 0 - DigitsValue(digits) else DigitsValue(digits);
        if IntMin <= v <= IntMax then Some(v) else None
  }

  function DigitChar(d: nat): (c: char)
    requires d < 10
    ensures IsDigit(c) && DigitValue(c) == d
  {
    ('0' as int + d) as char
  }

  /** Decimal rendering of a natural number, without leading zeros. */
  function ShowNat(n: nat): (r: string)
    ensures |r| > 0 && AllDigits(r)
    decreases n
  {
    if n < 10 then [DigitChar(n)] else ShowNat(n / 10) + [DigitChar(n % 10)]
  }

  /** Decimal rendering of an integer, as `Int.toString()` writes it. */
  function ShowInt(n: int): string {
    if n < 0 then "-" + ShowNat(0 - n) else ShowNat(n)
  }

  lemma {:induction false} DigitsValueOfShowNat(n: nat)
    ensures DigitsValue(ShowNat(n)) == n
    decreases n
  {
    if n >= 10 {
      var s := ShowNat(n);
      assert s[..|s| - 1] == ShowNat(n / 10);
      DigitsValueOfShowNat(n / 10);
    }
  }

  /** Round trip: `toInt` reads back every `Int` rendered in decimal. */
  lemma ParseShowInt(n: Int32)
    ensures ParseInt(ShowInt(n)) == Some(n)
  {
    var s := ShowInt(n);
    if n < 0 {
      assert Unsigned(s) == ShowNat(0 - n as int);
      DigitsValueOfShowNat(0 - n as int);
    } else {
      DigitsValueOfShowNat(n);
      assert s[0] != '-' && s[0] != '+';
    }
  }

  // ---------------------------------------------------------------- splitting

  predicate OccursAt(s: string, sep: string, k: nat) {
    k + |sep| <= |s| && s[k..k + |sep|] == sep
  }

  /** The first occurrence of `sep` in `s` at or after `from`. */
  function IndexFrom(s: string, sep: string, from: nat): (r: Option<nat>)
    ensures r.Some? ==> from <= r.value && OccursAt(s, sep, r.value)
    ensures r.Some? ==> forall k :: from <= k < r.value ==> !OccursAt(s, sep, k)
    ensures r.None? ==> forall k :: from <= k ==> !OccursAt(s, sep, k)
    decreases |s| - from
  {
    if from + |sep| > |s| then None
    else if s[from..from + |sep|] == sep then Some(from)
    else IndexFrom(s, sep, from + 1)
  }

  /** Kotlin's `indexOf(sep)`: the first occurrence, `None` for -1. */
  function IndexOf(s: string, sep: string): Option<nat> {
    IndexFrom(s, sep, 0)
  }

  /** Kotlin's `split(sep)` for a non-empty delimiter: every piece between
      successive leftmost non-overlapping occurrences, empty pieces kept. */
  function Split(s: string, sep: string): (r: seq<string>)
    requires |sep| > 0
    ensures |r| > 0
    decreases |s|
  {
    match IndexOf(s, sep)
    case None => [s]
    case Some(i) => [s[..i]] + Split(s[i + |sep|..], sep)
  }

  /** Kotlin's `joinToString(sep)`. */
  function Join(xs: seq<string>, sep: string): string {
    if |xs| == 0 then ""
    else if |xs| == 1 then xs[0]
    else xs[0] + sep + Join(xs[1..], sep)
  }

  /** Kotlin's `substringBefore(sep)`: the whole string when `sep` is absent. */
  function SubstringBefore(s: string, sep: string): string {
    match IndexOf(s, sep)
    case None => s
    case Some(i) => s[..i]
  }

  /** Kotlin's `substringAfter(sep)`: the whole string when `sep` is absent. */
  function SubstringAfter(s: string, sep: string): string {
    match IndexOf(s, sep)
    case None => s
    case Some(i) => s[i + |sep|..]
  }

  /** `sep[p]` is a pivot of `sep` that `x` lacks: the character appears in
      neither `x` nor the part of `sep` before it. Then no occurrence of
      `sep` can start inside `x`. */
  predicate PivotFree(x: string, sep: string, p: nat) {
    p < |sep| && sep[p] !in x && sep[p] !in sep[..p]
  }

  /** With a pivot that `x` lacks, the first occurrence of `sep` in
      `x + sep + y` is the one right after `x`. */
  lemma IndexAfterFreeHead(x: string, sep: string, y: string, p: nat)
    requires PivotFree(x, sep, p)
    ensures IndexOf(x + sep + y, sep) == Some(|x|)
  {
    var s := x + sep + y;
    forall k | 0 <= k < |x|
      ensures !OccursAt(s, sep, k)
    {
      if k + |sep| <= |s| {
        assert s[k..k + |sep|][p] == s[k + p];
        if k + p < |x| {
          assert s[k + p] == x[k + p];
        } else {
          assert s[k + p] == sep[k + p - |x|] == sep[..p][k + p - |x|];
        }
      }
    }
    assert s[|x|..|x| + |sep|] == sep;
    assert OccursAt(s, sep, |x|);
  }

  /** A string that lacks a character of `sep` does not contain `sep`. */
  lemma NoIndexInFree(x: string, sep: string, p: nat)
    requires p < |sep| && sep[p] !in x
    ensures IndexOf(x, sep) == None
  {
    forall k: nat
      ensures !OccursAt(x, sep, k)
    {
      assert k + |sep| <= |x| ==> x[k..k + |sep|][p] == x[k + p];
    }
  }

  /** Splitting `x + sep + rest` cuts off `x` first when `x` lacks a pivot
      of `sep`. */
  lemma SplitHead(x: string, sep: string, rest: string, p: nat)
    requires PivotFree(x, sep, p)
    ensures Split(x + sep + rest, sep) == [x] + Split(rest, sep)
  {
    IndexAfterFreeHead(x, sep, rest, p);
    var s := x + sep + rest;
    assert s[..|x|] == x;
    assert s[|x| + |sep|..] == rest;
  }

  /** Round trip: splitting a join gives back the pieces, provided there is at
      least one piece and every piece lacks the same pivot of the separator. */
  lemma {:induction false} SplitJoin(xs: seq<string>, sep: string, p: nat)
    requires p < |sep| && |xs| > 0
    requires forall i :: 0 <= i < |xs| ==> PivotFree(xs[i], sep, p)
    ensures Split(Join(xs, sep), sep) == xs
    decreases |xs|
  {
    assert PivotFree(xs[0], sep, p);
    if |xs| == 1 {
      NoIndexInFree(xs[0], sep, p);
    } else {
      var tail := xs[1..];
      assert forall i :: 0 <= i < |tail| ==> tail[i] == xs[i + 1];
      SplitJoin(tail, sep, p);
      SplitHead(xs[0], sep, Join(tail, sep), p);
      assert xs == [xs[0]] + tail;
    }
  }

  /** `substringBefore`/`substringAfter` take a `x + sep + y` string apart when
      `x` lacks the first character of `sep`. */
  lemma SubstringsOfJoined(x: string, sep: string, y: string)
    requires |sep| > 0 && sep[0] !in x
    ensures SubstringBefore(x + sep + y, sep) == x
    ensures SubstringAfter(x + sep + y, sep) == y
  {
    IndexAfterFreeHead(x, sep, y, 0);
    var s := x + sep + y;
    assert s[..|x|] == x;
    assert s[|x| + |sep|..] == y;
  }
}
