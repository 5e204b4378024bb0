/** The handful of Python string built-ins the scripts rely on, written out over `seq<char>`:
    `str.isspace`, `str.strip`, `str.lower` (ASCII letters), `str.split()` with no argument,
    the substring test `t in s` and `str(int)`. */
module PyText {
  import opened Wrappers

  /** Python's `str.isspace()` for one character. `str.split()` and `str.strip()` with no
      argument break on exactly these characters. */
  predicate IsSpace(c: char) {
    || c == ' '
    || ('\t' <= c <= '\r')
    || ('\U{1c}' <= c <= '\U{1f}')
    || c == '\U{85}' || c == '\U{a0}' || c == '\U{1680}'
    || ('\U{2000}' <= c <= '\U{200a}')
    || c == '\U{2028}' || c == '\U{2029}' || c == '\U{202f}' || c == '\U{205f}' || c == '\U{3000}'
  }

  predicate NoSpace(s: string) {
    forall i | 0 <= i < |s| :: !IsSpace(s[i])
  }

  predicate AllSpace(s: string) {
    forall i | 0 <= i < |s| :: IsSpace(s[i])
  }

  /** A token as `str.split()` produces it: non-empty and free of whitespace. */
  predicate IsToken(t: string) {
    t != [] && NoSpace(t)
  }

  // ---------------------------------------------------------------- strip

  /** Number of whitespace characters at the front of `s`. */
  function LeadingSpaces(s: string): (n: nat)
    ensures n <= |s|
    ensures AllSpace(s[..n])
    ensures n == |s| || !IsSpace(s[n])
    decreases |s|
  {
    if |s| > 0 && IsSpace(s[0]) then 1 + LeadingSpaces(s[1..]) else 0
  }

  /** Number of whitespace characters at the back of `s`. */
  function TrailingSpaces(s: string): (n: nat)
    ensures n <= |s|
    ensures AllSpace(s[|s| - n..])
    ensures n == |s| || !IsSpace(s[|s| - n - 1])
    decreases |s|
  {
    if |s| > 0 && IsSpace(s[|s| - 1]) then 1 + TrailingSpaces(s[..|s| - 1]) else 0
  }

  /** Python's `s.strip()`: `s` without its leading and trailing whitespace. */
  function Strip(s: string): (r: string)
    ensures LeadingSpaces(s) + |r| <= |s|
    ensures r == s[LeadingSpaces(s)..LeadingSpaces(s) + |r|]
    ensures AllSpace(s[LeadingSpaces(s) + |r|..])
    ensures r == [] || (!IsSpace(r[0]) && !IsSpace(r[|r| - 1]))
  {
    if LeadingSpaces(s) == |s| then [] else s[LeadingSpaces(s)..|s| - TrailingSpaces(s)]
  }

  // ---------------------------------------------------------------- lower

  /** `c.lower()` for ASCII letters; every other character is left as it is. */
  function LowerChar(c: char): char {
    if 'A' <= c <= 'Z' then (c as int - 'A' as int + 'a' as int) as char else c
  }

  /** Python's `s.lower()`, restricted to ASCII letters. */
  function Lower(s: string): (r: string)
    ensures |r| == |s|
    ensures forall i | 0 <= i < |s| :: r[i] == LowerChar(s[i])
  {
    seq(|s|, i requires 0 <= i < |s| => LowerChar(s[i]))
  }

  /** Lower-casing never turns whitespace into a letter or a letter into whitespace. */
  lemma LowerCharKeepsSpace(c: char)
    ensures IsSpace(LowerChar(c)) == IsSpace(c)
  {
  }

  // ---------------------------------------------------------------- substring test

  predicate StartsWith(s: string, prefix: string) {
    |prefix| <= |s| && s[..|prefix|] == prefix
  }

  predicate EndsWith(s: string, suffix: string) {
    |suffix| <= |s| && s[|s| - |suffix|..] == suffix
  }

  /** Python's `t in s` for strings, as a left-to-right scan. */
  predicate Contains(s: string, t: string)
    decreases |s|
  {
    StartsWith(s, t) || (s != [] && Contains(s[1..], t))
  }

  /** `t` occurs in `s` starting at index `i`: the reference meaning of `t in s`. */
  predicate OccursAt(s: string, t: string, i: int) {
    0 <= i && i + |t| <= |s| && s[i..i + |t|] == t
  }

  /** The scan finds `t` exactly when `t` occurs somewhere in `s`. */
  lemma {:induction false} ContainsIffOccurs(s: string, t: string)
    ensures Contains(s, t) <==> exists i :: OccursAt(s, t, i)
    decreases |s|
  {
    assert OccursAt(s, t, 0) == StartsWith(s, t);
    if s != [] {
      ContainsIffOccurs(s[1..], t);
      forall i | 0 < i
        ensures OccursAt(s, t, i) == OccursAt(s[1..], t, i - 1)
      {
        if i + |t| <= |s| {
          assert s[1..][i - 1..i - 1 + |t|] == s[i..i + |t|];
        }
      }
      if Contains(s[1..], t) {
        var i :| OccursAt(s[1..], t, i);
        assert OccursAt(s, t, i + 1);
      }
    }
  }

  // ---------------------------------------------------------------- split and join

  /** Length of the run of non-whitespace characters at the front of `s`. */
  function TokenLength(s: string): (n: nat)
    ensures n <= |s|
    ensures NoSpace(s[..n])
    ensures n == |s| || IsSpace(s[n])
    decreases |s|
  {
    if |s| > 0 && !IsSpace(s[0]) then 1 + TokenLength(s[1..]) else 0
  }

  /** Python's `s.split()` with no argument: the maximal runs of non-whitespace, in order. */
  function Split(s: string): (parts: seq<string>)
    ensures forall k | 0 <= k < |parts| :: IsToken(parts[k])
    decreases |s|
  {
    if s == [] then []
    else if IsSpace(s[0]) then Split(s[1..])
    else
      var n := TokenLength(s);
      [s[..n]] + Split(s[n..])
  }

  /** Python's `" ".join(parts)`. */
  function Join(parts: seq<string>): string
    decreases |parts|
  {
    if parts == [] then ""
    else if |parts| == 1 then parts[0]
    else parts[0] + " " + Join(parts[1..])
  }

  lemma {:induction false} TokenLengthOfToken(t: string, rest: string)
    requires NoSpace(t)
    requires rest == [] || IsSpace(rest[0])
    ensures TokenLength(t + rest) == |t|
    decreases |t|
  {
    if t == [] {
      assert t + rest == rest;
    } else {
      assert (t + rest)[1..] == t[1..] + rest;
      TokenLengthOfToken(t[1..], rest);
    }
  }

  /** Splitting a line made by joining tokens with single spaces gives the tokens back. */
  lemma {:induction false} SplitJoin(parts: seq<string>)
    requires forall k | 0 <= k < |parts| :: IsToken(parts[k])
    ensures Split(Join(parts)) == parts
    decreases |parts|
  {
    if parts == [] {
    } else if |parts| == 1 {
      var t := parts[0];
      TokenLengthOfToken(t, "");
      assert t + "" == t;
      assert t[|t|..] == [];
      assert Split(t) == [t[..|t|]] + Split(t[|t|..]);
    } else {
      var t, rest := parts[0], Join(parts[1..]);
      var s := t + " " + rest;
      assert s == t + (" " + rest);
      TokenLengthOfToken(t, " " + rest);
      assert s[..|t|] == t;
      assert s[|t|..] == " " + rest;
      assert Split(" " + rest) == Split(rest) by {
        assert (" " + rest)[1..] == rest;
      }
      SplitJoin(parts[1..]);
      assert Split(s) == [t] + parts[1..];
    }
  }

  /** A line made by joining tokens neither starts nor ends with whitespace. */
  lemma {:induction false} JoinEnds(parts: seq<string>)
    requires parts != []
    requires forall k | 0 <= k < |parts| :: IsToken(parts[k])
    ensures Unpadded(Join(parts))
    decreases |parts|
  {
    var s := Join(parts);
    assert IsToken(parts[0]);
    if |parts| == 1 {
      assert s == parts[0];
    } else {
      var tail := parts[1..];
      forall k | 0 <= k < |tail| ensures IsToken(tail[k]) {
        assert tail[k] == parts[k + 1];
      }
      JoinEnds(tail);
      var rest := Join(tail);
      assert s == parts[0] + " " + rest;
      assert s[0] == parts[0][0];
      assert s[|s| - 1] == rest[|rest| - 1];
    }
  }

  /** `s` is non-empty and neither starts nor ends with whitespace. */
  predicate Unpadded(s: string) {
    s != [] && !IsSpace(s[0]) && !IsSpace(s[|s| - 1])
  }

  /** Stripping a string that neither starts nor ends with whitespace, followed by a newline,
      gives the string. */
  lemma StripUnpaddedNewline(s: string)
    requires Unpadded(s)
    ensures Strip(s + "\n") == s
  {
    var t := s + "\n";
    assert t[0] == s[0];
    assert LeadingSpaces(t) == 0;
    assert t[0..] == t;
    assert t[..|t| - 1] == s;
    assert TrailingSpaces(s) == 0;
    assert TrailingSpaces(t) == 1;
  }

  /** A line of tokens joined by spaces and ended by a newline strips to the joined tokens. */
  lemma StripJoinNewline(parts: seq<string>)
    requires parts != []
    requires forall k | 0 <= k < |parts| :: IsToken(parts[k])
    ensures Strip(Join(parts) + "\n") == Join(parts)
  {
    var s := Join(parts);
    JoinEnds(parts);
    StripUnpaddedNewline(s);
  }

  // ---------------------------------------------------------------- str(int)

  predicate IsDigit(c: char) {
    '0' <= c <= '9'
  }

  predicate AllDigits(s: string) {
    forall i | 0 <= i < |s| :: IsDigit(s[i])
  }

  function DigitChar(d: nat): (c: char)
    requires d < 10
    ensures IsDigit(c)
  {
    ('0' as int + d) as char
  }

  function DigitValue(c: char): (d: nat)
    requires IsDigit(c)
    ensures d < 10 && DigitChar(d) == c
  {
    c as int - '0' as int
  }

  /** Decimal digits of `n`, most significant first, without leading zeros. */
  function NatToString(n: nat): (s: string)
    ensures s != [] && AllDigits(s)
    decreases n
  {
    if n < 10 then [DigitChar(n)] else NatToString(n / 10) + [DigitChar(n % 10)]
  }

  /** Python's `str(i)` for an integer: a minus sign for negative values, then the digits. */
  function IntToString(i: int): (s: string)
    ensures s != []
  {
    if i < 0 then "-" + NatToString(-i) else NatToString(i)
  }

  /** Value of a string of decimal digits (the empty string reads as 0). */
  function ParseNat(s: string): nat
    requires AllDigits(s)
    decreases |s|
  {
    if s == [] then 0 else ParseNat(s[..|s| - 1]) * 10 + DigitValue(s[|s| - 1])
  }

  /** Python's `int(s)` for an optional minus sign followed by decimal digits. */
  function ParseInt(s: string): Option<int> {
    if |s| > 1 && s[0] == '-' && AllDigits(s[1..]) then Some(0 - ParseNat(s[1..]) as int)
    else if s != [] && AllDigits(s) then Some(ParseNat(s))
    else None
  }

  lemma {:induction false} ParseNatToString(n: nat)
    ensures ParseNat(NatToString(n)) == n
    decreases n
  {
    var s := NatToString(n);
    if n >= 10 {
      ParseNatToString(n / 10);
      assert s[..|s| - 1] == NatToString(n / 10);
    }
  }

  /** `str(i)` can be read back: the decimal text of an integer determines it. */
  lemma IntToStringRoundTrip(i: int)
    ensures ParseInt(IntToString(i)) == Some(i)
  {
    if i < 0 {
      ParseNatToString(-i);
      assert IntToString(i)[1..] == NatToString(-i);
    } else {
      ParseNatToString(i);
    }
  }

  /** Distinct integers have distinct decimal texts. */
  lemma IntToStringInjective(i: int, j: int)
    requires IntToString(i) == IntToString(j)
    ensures i == j
  {
    IntToStringRoundTrip(i);
    IntToStringRoundTrip(j);
  }
}
