/**
 * The `java.lang.String` and `Integer` operations the program applies to
 * file names and console lines: `trim`, `toLowerCase`, `lastIndexOf`,
 * `split(",")` and `Integer.parseInt`. Characters are UTF-16 code units as
 * in Java; only the ASCII letters and digits take part in case mapping and
 * number parsing.
 */
module JavaText {

  import opened Int32

  datatype Option<T> = None | Some(value: T)

  /** `String.trim` removes every leading and trailing character up to U+0020. */
  predicate IsTrimmed(c: char)
  {
    c <= ' '
  }

  /** The first index at or after `k` whose character is not trimmed, or `|s|`. */
  function SkipLeading(s: string, k: nat): (n: nat)
    requires k <= |s|
    ensures k <= n <= |s| && (n == |s| || !IsTrimmed(s[n]))
    ensures forall i :: k <= i < n ==> IsTrimmed(s[i])
    decreases |s| - k
  {
    if k == |s| || !IsTrimmed(s[k]) then k else SkipLeading(s, k + 1)
  }

  /** The end of the prefix `s[..k]` once its trailing trimmed characters are dropped. */
  function SkipTrailing(s: string, k: nat): (n: nat)
    requires k <= |s|
    ensures n <= k && (n == 0 || !IsTrimmed(s[n - 1]))
    ensures forall i :: n <= i < k ==> IsTrimmed(s[i])
  {
    if k == 0 || !IsTrimmed(s[k - 1]) then k else SkipTrailing(s, k - 1)
  }

  /**
   * `t` is the run of `s` that starts at index `a`, and every character of
   * `s` before or after that run is at most U+0020.
   */
  predicate StripsTo(s: string, a: int, t: string)
  {
    0 <= a && a + |t| <= |s| && t == s[a..a + |t|] &&
    (forall i :: 0 <= i < a ==> IsTrimmed(s[i])) &&
    (forall i :: a + |t| <= i < |s| ==> IsTrimmed(s[i]))
  }

  /**
   * `s.trim()`: the middle of `s` left after dropping the characters up to
   * U+0020 at both ends. It is empty or starts and ends with a character
   * above U+0020, and everything dropped is at most U+0020.
   */
  function Trim(s: string): (t: string)
    ensures t == [] || (!IsTrimmed(t[0]) && !IsTrimmed(t[|t| - 1]))
    ensures t == [] <==> forall i :: 0 <= i < |s| ==> IsTrimmed(s[i])
  {
    var start := SkipLeading(s, 0);
    if start == |s| then [] else s[start..SkipTrailing(s, |s|)]
  }

  /**
   * `trim` removes only characters up to U+0020, and only at the ends: its
   * result is a run of `s` with nothing but such characters around it.
   */
  lemma TrimStrips(s: string)
    ensures exists a :: StripsTo(s, a, Trim(s))
  {
    var start := SkipLeading(s, 0);
    if start == |s| {
      assert StripsTo(s, 0, Trim(s));
    } else {
      assert StripsTo(s, start, Trim(s));
    }
  }

  /** A string that is empty or has untrimmed ends is its own trim. */
  lemma TrimUnpadded(s: string)
    requires s == [] || (!IsTrimmed(s[0]) && !IsTrimmed(s[|s| - 1]))
    ensures Trim(s) == s
  {
    if s != [] {
      assert SkipLeading(s, 0) == 0;
      assert SkipTrailing(s, |s|) == |s|;
    }
  }

  /** Trimming twice is trimming once. */
  lemma TrimIdempotent(s: string)
    ensures Trim(Trim(s)) == Trim(s)
  {
    TrimUnpadded(Trim(s));
  }

  function ToLowerChar(c: char): (d: char)
    ensures 'A' <= c <= 'Z' ==> d as int == c as int + 32
    ensures !('A' <= c <= 'Z') ==> d == c
  {
    if 'A' <= c <= 'Z' then (c as int + 32) as char else c
  }

  /** `s.toLowerCase()` on the ASCII letters. */
  function ToLower(s: string): (t: string)
    ensures |t| == |s| && forall i :: 0 <= i < |s| ==> t[i] == ToLowerChar(s[i])
  {
    seq(|s|, i requires 0 <= i < |s| => ToLowerChar(s[i]))
  }

  /** Lower-casing is idempotent and leaves no ASCII capital behind. */
  lemma ToLowerIdempotent(s: string)
    ensures ToLower(ToLower(s)) == ToLower(s)
    ensures forall i :: 0 <= i < |s| ==> !('A' <= ToLower(s)[i] <= 'Z')
  {
  }

  /** `s.lastIndexOf(c)`: the largest index holding `c`, or -1 when there is none. */
  function LastIndexOf(s: string, c: char): (i: int)
    ensures -1 <= i < |s|
    ensures 0 <= i ==> s[i] == c
    ensures forall j :: i < j < |s| ==> s[j] != c
  {
    if s == [] then -1
    else if s[|s| - 1] == c then |s| - 1
    else LastIndexOf(s[..|s| - 1], c)
  }

  // ------------------------------------------------------------------ split

  /** The pieces of `s` between the occurrences of `sep`, empty pieces included. */
  function SplitOn(s: string, sep: char): (parts: seq<string>)
    ensures |parts| >= 1
    ensures forall k :: 0 <= k < |parts| ==> sep !in parts[k]
  {
    var i := LastIndexOf(s, sep);
    if i < 0 then [s] else SplitOn(s[..i], sep) + [s[i + 1..]]
  }

  /** The pieces joined back with `sep` in between. */
  function Join(parts: seq<string>, sep: char): string
  {
    if |parts| <= 1 then (if parts == [] then "" else parts[0])
    else Join(parts[..|parts| - 1], sep) + [sep] + parts[|parts| - 1]
  }

  /** Splitting and joining again gives back the original string. */
  lemma {:induction false} JoinSplitOn(s: string, sep: char)
    ensures Join(SplitOn(s, sep), sep) == s
  {
    var i := LastIndexOf(s, sep);
    if i >= 0 {
      var init := SplitOn(s[..i], sep);
      JoinSplitOn(s[..i], sep);
      var parts := init + [s[i + 1..]];
      assert parts[..|parts| - 1] == init;
      assert s == s[..i] + [sep] + s[i + 1..];
    }
  }

  function DropTrailingEmpty(parts: seq<string>): (r: seq<string>)
    ensures |r| <= |parts| && r == parts[..|r|]
    ensures r == [] || r[|r| - 1] != []
    ensures forall k :: |r| <= k < |parts| ==> parts[k] == []
  {
    if parts != [] && parts[|parts| - 1] == [] then DropTrailingEmpty(parts[..|parts| - 1]) else parts
  }

  /**
   * `s.split(",")` with a one-character separator: the string itself when
   * the separator does not occur, otherwise the pieces with the trailing
   * empty ones removed.
   */
  function JavaSplit(s: string, sep: char): (parts: seq<string>)
    ensures sep !in s ==> parts == [s]
    ensures forall k :: 0 <= k < |parts| ==> sep !in parts[k]
    ensures sep in s ==> |parts| <= |SplitOn(s, sep)| && parts == SplitOn(s, sep)[..|parts|] &&
                         forall k :: |parts| <= k < |SplitOn(s, sep)| ==> SplitOn(s, sep)[k] == []
  {
    if LastIndexOf(s, sep) < 0 then [s] else DropTrailingEmpty(SplitOn(s, sep))
  }

  // --------------------------------------------------------------- parseInt

  predicate IsDigit(c: char)
  {
    '0' <= c <= '9'
  }

  function DigitValue(c: char): (d: nat)
    requires IsDigit(c)
    ensures d < 10
  {
    c as int - '0' as int
  }

  predicate AllDigits(s: string)
  {
    forall i :: 0 <= i < |s| ==> IsDigit(s[i])
  }

  /** The value of a string of decimal digits, most significant first. */
  function DigitsValue(s: string): nat
    requires AllDigits(s)
  {
    if s == [] then 0 else DigitsValue(s[..|s| - 1]) * 10 + DigitValue(s[|s| - 1])
  }

  /** `s` without one leading `+` or `-`. */
  function Unsigned(s: string): (d: string)
    ensures |d| <= |s| && d == s[|s| - |d|..]
  {
    if s != [] && (s[0] == '+' || s[0] == '-') then s[1..] else s
  }

  /** The number a sign and decimal digits denote. */
  function SignedValue(s: string): int
    requires AllDigits(Unsigned(s))
  {
    if s != [] && s[0] == '-' then -(DigitsValue(Unsigned(s)) as int) else DigitsValue(Unsigned(s))
  }

  /**
   * `Integer.parseInt(s)`: an optional `+` or `-`, then at least one digit,
   * and a value that fits in an `int`; anything else throws
   * `NumberFormatException`, modelled as `None`.
   */
  function ParseInt(s: string): (r: Option<int>)
    ensures r.Some? <==> Unsigned(s) != [] && AllDigits(Unsigned(s)) && MIN <= SignedValue(s) <= MAX
    ensures r.Some? ==> r.value == SignedValue(s)
    ensures r.Some? ==> MIN <= r.value <= MAX
    ensures r.Some? ==> s != [] && (IsDigit(s[0]) || s[0] == '+' || s[0] == '-')
    ensures s == [] ==> r.None?
  {
    if s == [] then None
    else
      var negative := s[0] == '-';
      var digits := if s[0] == '-' || s[0] == '+' then s[1..] else s;
      if digits == [] || !AllDigits(digits) then None
      else
        var v: int := if negative then -(DigitsValue(digits) as int) else DigitsValue(digits);
        if MIN <= v <= MAX then Some(v) else None
  }

  function DigitChar(d: nat): (c: char)
    requires d < 10
    ensures IsDigit(c) && DigitValue(c) == d
  {
    ('0' as int + d) as char
  }

  /** `Integer.toString(n)` for a non-negative `n`. */
  function NatToString(n: nat): (s: string)
    ensures s != [] && AllDigits(s)
  {
    if n < 10 then [DigitChar(n)] else NatToString(n / 10) + [DigitChar(n % 10)]
  }

  lemma {:induction false} DigitsValueOfNatToString(n: nat)
    ensures DigitsValue(NatToString(n)) == n
  {
    if n >= 10 {
      var s := NatToString(n);
      DigitsValueOfNatToString(n / 10);
      assert s[..|s| - 1] == NatToString(n / 10);
    }
  }

  /** `Integer.toString(n)` */
  function IntToString(n: int): string
  {
    if n < 0 then "-" + NatToString(-n) else NatToString(n)
  }

  /** Every `int` printed in decimal parses back to itself. */
  lemma ParseIntToString(n: JInt)
    ensures ParseInt(IntToString(n)) == Some(n)
  {
    var m: nat := if n < 0 then -(n as int) else n;
    DigitsValueOfNatToString(m);
    if n < 0 {
      assert IntToString(n)[1..] == NatToString(m);
    }
  }

  /** A leading zero does not change the value of a digit string. */
  lemma {:induction false} DigitsValueLeadingZero(d: string)
    requires AllDigits(d)
    ensures AllDigits("0" + d) && DigitsValue("0" + d) == DigitsValue(d)
  {
    if d != [] {
      var n := |d|;
      assert ("0" + d)[..n] == "0" + d[..n - 1];
      DigitsValueLeadingZero(d[..n - 1]);
    }
  }

  /** `parseInt` accepts leading zeros: "007" parses as "7" does. */
  lemma ParseIntLeadingZero(d: string)
    requires d != [] && AllDigits(d)
    ensures ParseInt("0" + d) == ParseInt(d)
  {
    DigitsValueLeadingZero(d);
    assert Unsigned("0" + d) == "0" + d;
    assert Unsigned(d) == d;
    assert SignedValue("0" + d) == SignedValue(d);
  }

  /** `parseInt` accepts an explicit plus sign: "+7" parses as "7" does. */
  lemma ParseIntPlusSign(d: string)
    requires d != [] && IsDigit(d[0])
    ensures ParseInt("+" + d) == ParseInt(d)
  {
    assert Unsigned("+" + d) == d;
    assert Unsigned(d) == d;
  }

  /** Surrounding blanks make `parseInt` fail, which is why the program trims first. */
  lemma ParseIntRejectsLeadingBlank(s: string)
    requires s != [] && IsTrimmed(s[0])
    ensures ParseInt(s).None?
  {
  }
}
