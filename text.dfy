/**
 * The JavaScript string operations the application's helpers are built from:
 * `String(n)` on integers, `padStart(2, "0")`, `trim()`, `toUpperCase()` on
 * ASCII letters, `charAt(0)`, `split(" ")` and `join("")`.
 */
module Text {
  import opened Wrappers

  // ---------------------------------------------------------------------------
  // Decimal numerals: String(n) for integers

  predicate IsDigit(c: char) {
    '0' <= c <= '9'
  }

  predicate AllDigits(s: string) {
    forall i :: 0 <= i < |s| ==> IsDigit(s[i])
  }

  function DigitChar(d: nat): (c: char)
    requires d < 10
    ensures IsDigit(c) && c as int - '0' as int == d
  {
    (d + '0' as int) as char
  }

  /** The decimal numeral of `n`, without leading zeros. */
  function NatToString(n: nat): (s: string)
    ensures |s| > 0 && AllDigits(s)
    ensures n < 10 <==> |s| == 1
  {
    if n < 10 then [DigitChar(n)] else NatToString(n / 10) + [DigitChar(n % 10)]
  }

  /** JavaScript's `String(i)` for an integer-valued number. */
  function IntToString(i: int): (s: string)
    ensures |s| > 0
    ensures i >= 0 <==> AllDigits(s)
  {
    if i < 0 then
      var s := "-" + NatToString(-i);
      assert !IsDigit(s[0]);
      s
    else NatToString(i)
  }

  /** The value of a string of decimal digits (the empty string is worth 0). */
  function DigitsValue(s: string): nat
    requires AllDigits(s)
  {
    if s == [] then 0 else DigitsValue(s[..|s| - 1]) * 10 + (s[|s| - 1] as int - '0' as int)
  }

  /** Reads a non-empty string of decimal digits back into a number. */
  function ParseNat(s: string): Option<nat> {
    if |s| > 0 && AllDigits(s) then Some(DigitsValue(s)) else None
  }

  /** Reading a numeral back gives the number it was printed from. */
  lemma {:induction false} ParseNatToString(n: nat)
    ensures ParseNat(NatToString(n)) == Some(n)
  {
    DigitsOfNat(n);
  }

  lemma {:induction false} DigitsOfNat(n: nat)
    ensures DigitsValue(NatToString(n)) == n
  {
    var s := NatToString(n);
    if n >= 10 {
      DigitsOfNat(n / 10);
      assert s[..|s| - 1] == NatToString(n / 10);
    }
  }

  /** A numeral with a leading zero is worth what the rest is worth. */
  lemma LeadingZero(c: char)
    requires IsDigit(c)
    ensures ParseNat(['0', c]) == ParseNat([c])
  {
    var s := ['0', c];
    assert AllDigits(s) && AllDigits([c]);
    assert s[..1] == ['0'] && ['0'][..0] == [] && [c][..0] == [];
    assert DigitsValue(['0']) == 0;
    assert DigitsValue(s) == c as int - '0' as int == DigitsValue([c]);
    assert ['0', c][..1] == ['0'];
    assert ['0'][..0] == [];
    assert [c][..0] == [];
  }

  /** `s.padStart(2, "0")`: left-pads with '0' up to length 2. */
  function PadStart2(s: string): (r: string)
    ensures |r| == if |s| >= 2 then |s| else 2
    ensures r[|r| - |s|..] == s
    ensures forall i :: 0 <= i < |r| - |s| ==> r[i] == '0'
  {
    if |s| >= 2 then s else seq(2 - |s|, _ => '0') + s
  }

  // ---------------------------------------------------------------------------
  // trim(): the WhiteSpace and LineTerminator code points of ECMAScript

  predicate IsJsSpace(c: char) {
    || c == '\t' || c == '\U{000B}' || c == '\U{000C}' || c == ' ' || c == '\U{00A0}'
    || c == '\U{FEFF}' || c == '\U{1680}' || ('\U{2000}' <= c <= '\U{200A}')
    || c == '\U{202F}' || c == '\U{205F}' || c == '\U{3000}'
    || c == '\n' || c == '\r' || c == '\U{2028}' || c == '\U{2029}'
  }

  predicate AllSpace(s: string) {
    forall i :: 0 <= i < |s| ==> IsJsSpace(s[i])
  }

  function TrimStart(s: string): (r: string)
    ensures |r| <= |s| && r == s[|s| - |r|..]
    ensures AllSpace(s[..|s| - |r|])
    ensures r == [] || !IsJsSpace(r[0])
  {
    if |s| > 0 && IsJsSpace(s[0]) then
      var r := TrimStart(s[1..]);
      assert s[..|s| - |r|] == [s[0]] + s[1..][..|s| - 1 - |r|];
      r
    else s
  }

  function TrimEnd(s: string): (r: string)
    ensures |r| <= |s| && r == s[..|r|]
    ensures AllSpace(s[|r|..])
    ensures r == [] || !IsJsSpace(r[|r| - 1])
  {
    if |s| > 0 && IsJsSpace(s[|s| - 1]) then
      var r := TrimEnd(s[..|s| - 1]);
      assert s[|r|..] == s[..|s| - 1][|r|..] + [s[|s| - 1]];
      r
    else s
  }

  /** `s.trim()`: drops leading and trailing white space. */
  function Trim(s: string): string {
    TrimEnd(TrimStart(s))
  }

  /** The first character of `s` that is not white space, or nothing. */
  function FirstNonBlank(s: string): (r: string)
    ensures |r| <= 1
  {
    if s == [] then ""
    else if IsJsSpace(s[0]) then FirstNonBlank(s[1..])
    else [s[0]]
  }

  /** The trimmed string is empty exactly when the string is all white space,
      and it starts with the first character that is not white space. */
  lemma {:induction false} TrimmedStart(s: string)
    ensures Trim(s) == [] <==> AllSpace(s)
    ensures FirstChar(Trim(s)) == FirstNonBlank(s)
  {
    if s == [] {
    } else if IsJsSpace(s[0]) {
      assert Trim(s) == Trim(s[1..]);
      TrimmedStart(s[1..]);
      SpaceCons(s);
    } else {
      assert TrimStart(s) == s;
      var r := TrimEnd(s);
      assert r[0] == s[0];
    }
  }

  lemma SpaceCons(s: string)
    requires s != [] && IsJsSpace(s[0])
    ensures AllSpace(s) <==> AllSpace(s[1..])
  {
    if AllSpace(s[1..]) {
      forall i | 0 <= i < |s| ensures IsJsSpace(s[i]) {
        if i > 0 { assert s[i] == s[1..][i - 1]; }
      }
    }
  }

  // ---------------------------------------------------------------------------
  // Case, characters, split and join

  /** `toUpperCase()` on one character, for the ASCII letters. */
  function UpperChar(c: char): char {
    if 'a' <= c <= 'z' then (c as int - 32) as char else c
  }

  predicate IsLowerAscii(c: char) {
    'a' <= c <= 'z'
  }

  function ToUpper(s: string): (r: string)
    ensures |r| == |s|
    ensures forall i :: 0 <= i < |s| ==> r[i] == UpperChar(s[i]) && !IsLowerAscii(r[i])
  {
    seq(|s|, i requires 0 <= i < |s| => UpperChar(s[i]))
  }

  /** `s.charAt(0)`, and also `s[0]` turned back into text by `join`: the first
      character, or nothing for the empty string. */
  function FirstChar(s: string): (r: string)
    ensures |r| == if s == [] then 0 else 1
    ensures s != [] ==> r[0] == s[0]
  {
    if s == [] then "" else [s[0]]
  }

  /** `s.split(sep)` for a one-character separator: adjacent separators give
      empty parts, and the empty string splits into one empty part. */
  function Split(s: string, sep: char): (parts: seq<string>)
    ensures |parts| > 0
  {
    if s == [] then [""]
    else if s[0] == sep then [""] + Split(s[1..], sep)
    else
      var rest := Split(s[1..], sep);
      [[s[0]] + rest[0]] + rest[1..]
  }

  /** `parts.join(sep)`. */
  function Join(parts: seq<string>, sep: char): string {
    if parts == [] then ""
    else if |parts| == 1 then parts[0]
    else parts[0] + [sep] + Join(parts[1..], sep)
  }

  /** `split` is undone by `join`, and no part holds the separator. */
  lemma {:induction false} SplitJoin(s: string, sep: char)
    ensures Join(Split(s, sep), sep) == s
    ensures forall p :: p in Split(s, sep) ==> sep !in p
  {
    if s != [] {
      var rest := Split(s[1..], sep);
      SplitJoin(s[1..], sep);
      if s[0] == sep {
        assert Split(s, sep) == [""] + rest;
        assert s == [] + [sep] + s[1..];
      } else {
        var parts := Split(s, sep);
        assert parts[1..] == rest[1..];
        if |rest| == 1 {
          assert rest[0] == s[1..];
        } else {
          assert rest == [rest[0]] + rest[1..];
          assert Join(rest, sep) == rest[0] + [sep] + Join(rest[1..], sep);
        }
      }
    }
  }

  /** Splitting a text that starts with a run free of the separator puts that
      run at the head of the first part. */
  lemma {:induction false} SplitPrefix(p: string, t: string, sep: char)
    requires sep !in p
    ensures Split(p + t, sep) == [p + Split(t, sep)[0]] + Split(t, sep)[1..]
  {
    if p == [] {
      var tail := Split(t, sep);
      assert p + t == t && p + tail[0] == tail[0];
      assert tail == [tail[0]] + tail[1..];
    } else {
      assert (p + t)[0] == p[0] && (p + t)[1..] == p[1..] + t;
      assert p[0] != sep by {
        assert p[0] in p;
      }
      assert sep !in p[1..] by {
        forall c | c in p[1..] ensures c in p {
        }
      }
      SplitPrefix(p[1..], t, sep);
      var tail := Split(t, sep);
      var rest := Split(p[1..] + t, sep);
      assert rest[0] == p[1..] + tail[0] && rest[1..] == tail[1..];
      assert [p[0]] + (p[1..] + tail[0]) == p + tail[0];
    }
  }

  /** `join` is undone by `split` when no part holds the separator. */
  lemma {:induction false} JoinSplit(parts: seq<string>, sep: char)
    requires parts != [] && forall i :: 0 <= i < |parts| ==> sep !in parts[i]
    ensures Split(Join(parts, sep), sep) == parts
  {
    if |parts| == 1 {
      SplitPrefix(parts[0], "", sep);
      assert parts[0] + "" == parts[0];
    } else {
      assert forall i :: 0 <= i < |parts[1..]| ==> sep !in parts[1..][i] by {
        forall i | 0 <= i < |parts[1..]| ensures sep !in parts[1..][i] {
          assert parts[1..][i] == parts[i + 1];
        }
      }
      JoinSplit(parts[1..], sep);
      var rest := Join(parts[1..], sep);
      assert Join(parts, sep) == parts[0] + ([sep] + rest);
      SplitPrefix(parts[0], [sep] + rest, sep);
      assert ([sep] + rest)[0] == sep && ([sep] + rest)[1..] == rest;
      assert Split([sep] + rest, sep) == [""] + parts[1..];
      assert parts[0] + "" == parts[0];
      assert parts == [parts[0]] + parts[1..];
    }
  }

  /** The first character of every part, in order (`parts.map(n => n[0]).join("")`). */
  function Initials(parts: seq<string>): (r: string)
    ensures |r| <= |parts|
  {
    if parts == [] then "" else FirstChar(parts[0]) + Initials(parts[1..])
  }

  /** The first characters of two runs of parts are those of the first run
      followed by those of the second: one character per non-empty part, in
      order, and nothing for an empty part. */
  lemma {:induction false} InitialsAppend(a: seq<string>, b: seq<string>)
    ensures Initials(a + b) == Initials(a) + Initials(b)
  {
    if a != [] {
      assert (a + b)[0] == a[0] && (a + b)[1..] == a[1..] + b;
      InitialsAppend(a[1..], b);
    } else {
      assert a + b == b;
    }
  }

  /** Reads `digits + suffix` back into the number the digits spell. */
  function ParseSuffixed(s: string, suffix: string): (r: Option<nat>)
    ensures r.Some? ==> |suffix| < |s| && s[|s| - |suffix|..] == suffix
  {
    if |suffix| < |s| && s[|s| - |suffix|..] == suffix then ParseNat(s[..|s| - |suffix|]) else None
  }

  /** A numeral followed by a unit is read back as the number. */
  lemma ParseSuffixedNumeral(n: nat, suffix: string)
    ensures ParseSuffixed(NatToString(n) + suffix, suffix) == Some(n)
  {
    var s := NatToString(n) + suffix;
    assert s[..|s| - |suffix|] == NatToString(n) && s[|s| - |suffix|..] == suffix;
    ParseNatToString(n);
  }

  /** A numeral has no space in it, so neither has a numeral followed by a
      unit without spaces. */
  lemma NumeralSpaceless(n: nat, unit: string)
    requires ' ' !in unit
    ensures ' ' !in NatToString(n) + unit
  {
    var digits := NatToString(n);
    forall k | 0 <= k < |digits + unit| ensures (digits + unit)[k] != ' ' {
      if k < |digits| {
        assert IsDigit(digits[k]);
      } else {
        assert unit[k - |digits|] in unit;
      }
    }
  }

  /** JavaScript's `%` on integers: the remainder takes the sign of the
      dividend (Dafny's `%` never is negative). */
  function JsRem(a: int, b: int): (r: int)
    requires b > 0
    ensures -b < r < b
    ensures a >= 0 ==> 0 <= r
    ensures a < 0 ==> r <= 0
    ensures (a - r) % b == 0
  {
    if a >= 0 then
      RemainderRest(a, b);
      a % b
    else
      NegatedRemainderRest(a, b);
      -((-a) % b)
  }

  /** The dividend minus its remainder is a multiple of the divisor. */
  lemma RemainderRest(a: int, b: int)
    requires b > 0
    ensures (a - a % b) % b == 0
  {
    var q := a / b;
    assert a - a % b == q * b;
    MultipleMod(q, b);
  }

  /** The same for the negated remainder of the negated dividend. */
  lemma NegatedRemainderRest(a: int, b: int)
    requires b > 0
    ensures (a + (-a) % b) % b == 0
  {
    var q := (-a) / b;
    assert (-a) - (-a) % b == q * b;
    assert a + (-a) % b == (-q) * b;
    MultipleMod(-q, b);
  }

  /** A multiple of b leaves no remainder. */
  lemma MultipleMod(q: int, b: int)
    requires b > 0
    ensures (q * b) % b == 0
  {
    var d, m := (q * b) / b, (q * b) % b;
    assert (q - d) * b == m;
    SmallMultiple(q - d, b);
  }

  /** Two multiples of b less than b apart are equal. */
  lemma EqualMultiples(x: int, y: int, b: int)
    requires b > 0 && x % b == 0 && y % b == 0 && -b < x - y < b
    ensures x == y
  {
    var q1, q2 := x / b, y / b;
    assert x == q1 * b;
    assert y == q2 * b;
    assert x - y == (q1 - q2) * b;
    SmallMultiple(q1 - q2, b);
  }

  /** The only multiple of b strictly between -b and b is 0. */
  lemma SmallMultiple(k: int, b: int)
    requires b > 0 && -b < k * b < b
    ensures k == 0
  {
    MultipleSign(k, b);
  }

  /** A positive multiple of b is at least b, a negative one at most -b. */
  lemma MultipleSign(k: int, b: int)
    requires b > 0
    ensures k >= 1 ==> k * b >= b
    ensures k <= -1 ==> k * b <= -b
  {
    if k >= 1 {
      assert k * b == (k - 1) * b + b;
    } else if k <= -1 {
      assert k * b == (k + 1) * b - b;
    }
  }

  /** The sign, the bound and the divisibility in `JsRem`'s contract leave
      only one candidate: the truncated remainder is determined by them. On a
      dividend that is not negative it is Dafny's `%`; on a negative one it
      is the negated remainder of the negated dividend. */
  lemma JsRemUnique(a: int, b: int, r: int)
    requires b > 0 && -b < r < b && (a >= 0 ==> 0 <= r) && (a < 0 ==> r <= 0)
    requires (a - r) % b == 0
    ensures r == JsRem(a, b)
    ensures a >= 0 ==> r == a % b
    ensures a < 0 ==> r == -((-a) % b)
  {
    var js := JsRem(a, b);
    assert -b < (a - r) - (a - js) < b;
    EqualMultiples(a - r, a - js, b);
  }

  /** `s.slice(0, n)`. */
  function Take(s: string, n: nat): (r: string)
    ensures |r| == if |s| < n then |s| else n
    ensures r == s[..|r|]
  {
    if |s| <= n then s else s[..n]
  }
}
