/** String operations of the JavaScript runtime that the dashboard relies on:
    `slice`, `startsWith`, `includes`, `trim`, `padStart`, `split`, `join`,
    and the decimal rendering of integers by `String(n)`.
    Strings are sequences of Unicode scalar values; UTF-16 code units are not
    modelled. */
module Text {
  import opened Wrappers

  /** `s.slice(0, n)` for `n >= 0`. */
  function Prefix(s: string, n: nat): (r: string)
    ensures |r| == if n <= |s| then n else |s|
    ensures r <= s
  {
    if n <= |s| then s[..n] else s
  }

  /** `s.slice(-n)` for `n > 0`: the last `n` characters, or all of `s`. */
  function LastN(s: string, n: nat): (r: string)
    ensures |r| == if n <= |s| then n else |s|
    ensures r == s[|s| - |r|..]
  {
    if n <= |s| then s[|s| - n..] else s
  }

  /** `s.startsWith(p)`. */
  predicate StartsWith(s: string, p: string) {
    |p| <= |s| && s[..|p|] == p
  }

  /** `sub` occurs in `s` starting at index `i`. */
  predicate OccursAt(s: string, sub: string, i: int) {
    0 <= i <= |s| - |sub| && s[i..i + |sub|] == sub
  }

  /** `s.includes(sub)`. */
  predicate Contains(s: string, sub: string) {
    exists i | 0 <= i <= |s| - |sub| :: OccursAt(s, sub, i)
  }

  /** The characters that `String.prototype.trim` removes and that the regular
      expression class `\s` matches: white space and line terminators. */
  predicate IsSpace(c: char) {
    || c == ' ' || c == '\t' || c == '\n' || c == '\U{000B}' || c == '\U{000C}' || c == '\r'
    || c == '\U{00A0}' || c == '\U{FEFF}' || c == '\U{1680}'
    || ('\U{2000}' <= c <= '\U{200A}')
    || c == '\U{2028}' || c == '\U{2029}' || c == '\U{202F}' || c == '\U{205F}' || c == '\U{3000}'
  }

  /** Number of white-space characters at the start of `s`. */
  function LeadingSpaces(s: string): (k: nat)
    ensures k <= |s|
    ensures forall i :: 0 <= i < k ==> IsSpace(s[i])
    ensures k == |s| || !IsSpace(s[k])
  {
    if |s| > 0 && IsSpace(s[0]) then 1 + LeadingSpaces(s[1..]) else 0
  }

  /** Number of white-space characters at the end of `s`. */
  function TrailingSpaces(s: string): (k: nat)
    ensures k <= |s|
    ensures forall i :: |s| - k <= i < |s| ==> IsSpace(s[i])
    ensures k == |s| || !IsSpace(s[|s| - 1 - k])
  {
    if |s| > 0 && IsSpace(s[|s| - 1]) then 1 + TrailingSpaces(s[..|s| - 1]) else 0
  }

  /** `s.trim()`. */
  function Trim(s: string): (r: string)
    ensures r == "" || (!IsSpace(r[0]) && !IsSpace(r[|r| - 1]))
  {
    var a := LeadingSpaces(s);
    var t := s[a..];
    t[..|t| - TrailingSpaces(t)]
  }

  /** Trimming only removes white space: the result sits inside `s`, with only
      white space around it. */
  lemma TrimIsInfix(s: string)
    ensures exists a, b :: 0 <= a <= b <= |s| && Trim(s) == s[a..b]
                           && (forall i :: 0 <= i < a ==> IsSpace(s[i]))
                           && (forall i :: b <= i < |s| ==> IsSpace(s[i]))
  {
    var a := LeadingSpaces(s);
    var t := s[a..];
    var b := a + |t| - TrailingSpaces(t);
    assert Trim(s) == s[a..b];
    forall i | b <= i < |s| ensures IsSpace(s[i]) {
      assert t[i - a] == s[i];
    }
  }

  /** A string with no white space at either end is its own trim. */
  lemma TrimNoSpaceEnds(s: string)
    requires s == "" || (!IsSpace(s[0]) && !IsSpace(s[|s| - 1]))
    ensures Trim(s) == s
  {
    if s != "" {
      assert LeadingSpaces(s) == 0;
      assert s[0..] == s;
      assert TrailingSpaces(s) == 0;
    }
  }

  predicate AllSpaces(s: string) {
    forall i :: 0 <= i < |s| ==> IsSpace(s[i])
  }

  lemma {:induction false} LeadingAfterSpaces(p: string, r: string)
    requires AllSpaces(p)
    ensures LeadingSpaces(p + r) == |p| + LeadingSpaces(r)
  {
    if p != [] {
      assert (p + r)[1..] == p[1..] + r;
      LeadingAfterSpaces(p[1..], r);
    } else {
      assert p + r == r;
    }
  }

  lemma {:induction false} TrailingBeforeSpaces(r: string, q: string)
    requires AllSpaces(q)
    ensures TrailingSpaces(r + q) == TrailingSpaces(r) + |q|
  {
    if q != [] {
      var n := |q| - 1;
      assert (r + q)[..|r + q| - 1] == r + q[..n];
      TrailingBeforeSpaces(r, q[..n]);
    } else {
      assert r + q == r;
    }
  }

  /** White space around a text with no white space at its ends is exactly
      what `trim` removes. */
  lemma TrimSurrounded(p: string, m: string, q: string)
    requires AllSpaces(p) && AllSpaces(q)
    requires m == "" || (!IsSpace(m[0]) && !IsSpace(m[|m| - 1]))
    ensures Trim(p + m + q) == m
  {
    var s := p + m + q;
    assert s == p + (m + q);
    LeadingAfterSpaces(p, m + q);
    if m == "" {
      assert m + q == q;
      LeadingAfterSpaces(q, "");
      assert q + "" == q;
    } else {
      assert LeadingSpaces(m + q) == 0;
      var t := s[|p|..];
      assert t == m + q;
      TrailingBeforeSpaces(m, q);
      assert TrailingSpaces(m) == 0;
      assert t[..|t| - |q|] == m;
    }
  }

  lemma SpacesConcat(a: string, b: string)
    requires AllSpaces(a) && AllSpaces(b)
    ensures AllSpaces(a + b)
  {
    forall i | 0 <= i < |a + b| ensures IsSpace((a + b)[i]) {
      if i >= |a| { assert (a + b)[i] == b[i - |a|]; }
    }
  }

  /** `s` split around its trim: white space, the trim, white space. */
  lemma TrimParts(s: string) returns (a: nat, b: nat)
    ensures a <= b <= |s| && Trim(s) == s[a..b]
    ensures AllSpaces(s[..a]) && AllSpaces(s[b..])
    ensures s == s[..a] + s[a..b] + s[b..]
  {
    a := LeadingSpaces(s);
    var t := s[a..];
    b := a + |t| - TrailingSpaces(t);
    assert AllSpaces(s[b..]) by {
      forall i | 0 <= i < |s[b..]| ensures IsSpace(s[b..][i]) { assert s[b..][i] == t[b - a + i]; }
    }
  }

  /** White space added around a text does not change its trim. */
  lemma TrimPadded(pre: string, body: string, post: string)
    requires AllSpaces(pre) && AllSpaces(post)
    ensures Trim(pre + body + post) == Trim(body)
  {
    var a, b := TrimParts(body);
    TrimAround(pre, body[..a], body[a..b], body[b..], post);
  }

  /** White space on both sides of white space around a text with no white
      space at its ends is still exactly what `trim` removes. */
  lemma TrimAround(pre: string, p: string, m: string, q: string, post: string)
    requires AllSpaces(pre) && AllSpaces(p) && AllSpaces(q) && AllSpaces(post)
    requires m == "" || (!IsSpace(m[0]) && !IsSpace(m[|m| - 1]))
    ensures Trim(pre + (p + m + q) + post) == m
  {
    SpacesConcat(pre, p);
    SpacesConcat(q, post);
    Regroup(pre, p, m, q, post);
    TrimSurrounded(pre + p, m, q + post);
  }

  /** Concatenation regrouped: the middle three pieces of five, together,
      are the middle of the same text split differently. */
  lemma Regroup(a: string, b: string, c: string, d: string, e: string)
    ensures a + (b + c + d) + e == (a + b) + c + (d + e)
  {
  }

  /** Trimming twice is trimming once. */
  lemma TrimIdempotent(s: string)
    ensures Trim(Trim(s)) == Trim(s)
  {
    TrimNoSpaceEnds(Trim(s));
  }

  /** Every character of `s` mapped by `f` (`s.replace(/x/g, y)` for single characters). */
  function MapChars(s: string, f: char -> char): (r: string)
    ensures |r| == |s|
    ensures forall i :: 0 <= i < |s| ==> r[i] == f(s[i])
  {
    if s == [] then [] else [f(s[0])] + MapChars(s[1..], f)
  }

  /** `s.replace(/\s+/g, "")`: all white space removed, other characters kept in order. */
  function RemoveSpaces(s: string): (r: string)
    ensures |r| <= |s|
    ensures forall i :: 0 <= i < |r| ==> !IsSpace(r[i])
    ensures forall c :: c in r ==> c in s
  {
    if s == [] then []
    else if IsSpace(s[0]) then RemoveSpaces(s[1..])
    else [s[0]] + RemoveSpaces(s[1..])
  }

  /** On one character: white space goes, anything else stays. */
  lemma RemoveSpacesOne(c: char)
    ensures RemoveSpaces([c]) == if IsSpace(c) then [] else [c]
  {
    assert [c][1..] == [];
  }

  /** `parts.join(sep)`. */
  function Join(parts: seq<string>, sep: string): string {
    if parts == [] then ""
    else if |parts| == 1 then parts[0]
    else parts[0] + sep + Join(parts[1..], sep)
  }

  lemma JoinTwo(a: string, b: string, sep: string)
    ensures Join([a, b], sep) == a + sep + b
    ensures StartsWith(Join([a, b], sep), a) && EndsWith(Join([a, b], sep), sep + b)
  {
    assert [a, b][1..] == [b];
    assert (a + sep + b)[..|a|] == a;
    assert (a + sep + b)[|a|..] == sep + b;
  }

  lemma JoinThree(a: string, b: string, c: string, sep: string)
    ensures Join([a, b, c], sep) == a + sep + b + sep + c
    ensures StartsWith(Join([a, b, c], sep), a) && EndsWith(Join([a, b, c], sep), sep + c)
  {
    assert [a, b, c][1..] == [b, c];
    JoinTwo(b, c, sep);
    var s := a + sep + b + sep + c;
    assert s[..|a|] == a;
    assert s[|s| - |sep + c|..] == sep + c;
  }

  /** `s.split(c)[0]`: the text before the first occurrence of `c`. */
  function BeforeFirst(s: string, c: char): (r: string)
    ensures r <= s
    ensures c !in r
    ensures |r| < |s| ==> s[|r|] == c
  {
    if s == [] then ""
    else if s[0] == c then ""
    else [s[0]] + BeforeFirst(s[1..], c)
  }

  /** The text before the first `c` of `d + [c] + rest`, when `d` has no `c`, is `d`. */
  lemma {:induction false} BeforeFirstConcat(d: string, c: char, rest: string)
    requires c !in d
    ensures BeforeFirst(d + [c] + rest, c) == d
  {
    if d != [] {
      assert (d + [c] + rest)[1..] == d[1..] + [c] + rest;
      BeforeFirstConcat(d[1..], c, rest);
    }
  }

  /** `s.endsWith(p)`. */
  predicate EndsWith(s: string, p: string) {
    |p| <= |s| && s[|s| - |p|..] == p
  }

  /** A text built as `a + m + b` starts with `a` and with `a + m`, and
      ends with `b` and with `m + b`. */
  lemma Affixes(a: string, m: string, b: string)
    ensures a + (m + b) == a + m + b
    ensures StartsWith(a + m + b, a) && StartsWith(a + m + b, a + m)
    ensures EndsWith(a + m + b, b) && EndsWith(a + m + b, m + b)
  {
    var s := a + m + b;
    assert s[..|a|] == a;
    assert s[..|a + m|] == a + m;
    assert s[|s| - |b|..] == b;
    assert s[|s| - |m + b|..] == m + b;
  }

  /** Concatenation regroups: four parts joined left to right are the first
      followed by the other three. */
  lemma RegroupTail(a: string, b: string, c: string, d: string)
    ensures a + b + c + d == a + (b + c + d)
  {
  }

  /** The same for five parts. */
  lemma RegroupTail5(a: string, b: string, c: string, d: string, e: string)
    ensures a + b + c + d + e == a + (b + c + d + e)
  {
  }

  /** Removing white space works piece by piece. */
  lemma {:induction false} RemoveSpacesConcat(a: string, b: string)
    ensures RemoveSpaces(a + b) == RemoveSpaces(a) + RemoveSpaces(b)
  {
    if a == [] {
      assert a + b == b;
    } else {
      assert (a + b)[0] == a[0];
      assert (a + b)[1..] == a[1..] + b;
      RemoveSpacesConcat(a[1..], b);
    }
  }

  lemma {:induction false} RemoveAllSpaces(s: string)
    requires AllSpaces(s)
    ensures RemoveSpaces(s) == ""
  {
    if s != [] {
      RemoveAllSpaces(s[1..]);
    }
  }

  lemma MapCharsConcat(a: string, b: string, f: char -> char)
    ensures MapChars(a + b, f) == MapChars(a, f) + MapChars(b, f)
  {
    assert forall i :: 0 <= i < |a + b| ==> MapChars(a + b, f)[i] == (MapChars(a, f) + MapChars(b, f))[i];
  }

  /** White space mapped by an `f` that leaves white space alone is removed. */
  lemma RemoveMappedSpaces(p: string, f: char -> char)
    requires AllSpaces(p)
    requires forall c :: IsSpace(c) ==> f(c) == c
    ensures RemoveSpaces(MapChars(p, f)) == ""
  {
    var m := MapChars(p, f);
    forall i | 0 <= i < |m| ensures IsSpace(m[i]) {
      assert m[i] == f(p[i]);
    }
    RemoveAllSpaces(m);
  }

  /** When `f` leaves white space alone, trimming before mapping and removing
      all white space changes nothing: the trimmed ends are removed anyway. */
  lemma TrimBeforeRemoveSpaces(s: string, f: char -> char)
    requires forall c :: IsSpace(c) ==> f(c) == c
    ensures RemoveSpaces(MapChars(Trim(s), f)) == RemoveSpaces(MapChars(s, f))
  {
    var a, b := TrimParts(s);
    RemoveMappedAround(s[..a], s[a..b], s[b..], f);
  }

  /** Mapping and removing white space ignores white space around a text. */
  lemma RemoveMappedAround(pre: string, mid: string, post: string, f: char -> char)
    requires AllSpaces(pre) && AllSpaces(post)
    requires forall c :: IsSpace(c) ==> f(c) == c
    ensures RemoveSpaces(MapChars(pre + mid + post, f)) == RemoveSpaces(MapChars(mid, f))
  {
    var mp, mm, mq := MapChars(pre, f), MapChars(mid, f), MapChars(post, f);
    MapCharsConcat(pre + mid, post, f);
    MapCharsConcat(pre, mid, f);
    RemoveSpacesConcat(mp + mm, mq);
    RemoveSpacesConcat(mp, mm);
    RemoveMappedSpaces(pre, f);
    RemoveMappedSpaces(post, f);
  }

  // ---------------------------------------------------------------------------
  // Decimal numerals

  predicate IsDigit(c: char) {
    '0' <= c <= '9'
  }

  predicate AllDigits(s: string) {
    forall i :: 0 <= i < |s| ==> IsDigit(s[i])
  }

  function DigitChar(d: nat): (c: char)
    requires d < 10
    ensures IsDigit(c)
  {
    "0123456789"[d]
  }

  function DigitValue(c: char): (d: nat)
    requires IsDigit(c)
    ensures d < 10
  {
    c as int - '0' as int
  }

  lemma DigitRoundTrip(d: nat)
    requires d < 10
    ensures DigitValue(DigitChar(d)) == d
  {
  }

  /** `String(n)` for a non-negative integer: its decimal digits, without leading zeros. */
  function NatToDecimal(n: nat): (r: string)
    ensures |r| >= 1 && AllDigits(r)
    ensures n < 10 <==> |r| == 1
    decreases n
  {
    if n < 10 then [DigitChar(n)] else NatToDecimal(n / 10) + [DigitChar(n % 10)]
  }

  /** The value of a string of decimal digits (leading zeros allowed). */
  function ParseDecimal(s: string): nat
    requires AllDigits(s)
  {
    if s == [] then 0 else ParseDecimal(s[..|s| - 1]) * 10 + DigitValue(s[|s| - 1])
  }

  /** Reading back a rendered numeral gives the number. */
  lemma {:induction false} ParseNatToDecimal(n: nat)
    ensures ParseDecimal(NatToDecimal(n)) == n
  {
    var r := NatToDecimal(n);
    if n < 10 {
      DigitRoundTrip(n);
    } else {
      ParseNatToDecimal(n / 10);
      assert r[..|r| - 1] == NatToDecimal(n / 10);
      DigitRoundTrip(n % 10);
    }
  }

  /** The last digit of a numeral is the number modulo ten. */
  lemma LastDigit(n: nat)
    ensures NatToDecimal(n)[|NatToDecimal(n)| - 1] == DigitChar(n % 10)
  {
  }

  lemma DivModHundred(n: nat)
    ensures (n % 100) / 10 == (n / 10) % 10
    ensures (n % 100) % 10 == n % 10
  {
    var a, m := n / 100, n % 100;
    var b, c := m / 10, m % 10;
    assert n == 100 * a + 10 * b + c;
    assert n / 10 == 10 * a + b;
  }

  /** The numeral of a number of at least two digits ends in the two digits of
      `n % 100`, zero-padded. */
  lemma {:induction false} LastTwoDigits(n: nat)
    requires n >= 10
    ensures LastN(NatToDecimal(n), 2) == Pad2(n % 100)
  {
    NumeralTail(n);
    Pad2Digits(n % 100);
    DivModHundred(n);
  }

  /** The last two characters of a numeral of at least two digits are its
      tens digit and its units digit. */
  lemma NumeralTail(n: nat)
    requires n >= 10
    ensures LastN(NatToDecimal(n), 2) == [DigitChar((n / 10) % 10), DigitChar(n % 10)]
  {
    var r, q := NatToDecimal(n), n / 10;
    assert r == NatToDecimal(q) + [DigitChar(n % 10)];
    LastDigit(q);
    assert r[|r| - 2] == DigitChar(q % 10);
  }

  /** A number below 100, zero-padded to two places, is its tens digit and
      its units digit. */
  lemma Pad2Digits(m: nat)
    requires m < 100
    ensures Pad2(m) == [DigitChar(m / 10), DigitChar(m % 10)]
  {
    if m >= 10 {
      assert NatToDecimal(m) == NatToDecimal(m / 10) + [DigitChar(m % 10)];
    }
  }

  /** `String(i)` for an integer. */
  function IntToDecimal(i: int): (r: string)
    ensures |r| >= 1
    ensures forall k :: 0 <= k < |r| ==> IsDigit(r[k]) || r[k] == '-'
    ensures '|' !in r
  {
    if i < 0 then "-" + NatToDecimal(-i) else NatToDecimal(i)
  }

  /** A rendered integer carries no white space to trim. */
  lemma TrimDecimal(i: int)
    ensures Trim(IntToDecimal(i)) == IntToDecimal(i)
  {
    var s := IntToDecimal(i);
    assert IsDigit(s[|s| - 1]);
    assert !IsSpace(s[|s| - 1]);
    assert s[0] == '-' || IsDigit(s[0]);
    assert !IsSpace(s[0]);
    TrimNoSpaceEnds(s);
  }

  /** Four-digit numbers have four-digit numerals, larger ones longer numerals. */
  lemma FourDigits(n: nat)
    requires n >= 1000
    ensures |NatToDecimal(n)| >= 4
    ensures n <= 9999 ==> |NatToDecimal(n)| == 4
  {
    var a := n / 10;
    var b := a / 10;
    var c := b / 10;
    assert a >= 100 && b >= 10 && c >= 1;
    assert |NatToDecimal(n)| == |NatToDecimal(a)| + 1;
    assert |NatToDecimal(a)| == |NatToDecimal(b)| + 1;
    assert |NatToDecimal(b)| == |NatToDecimal(c)| + 1;
    assert n <= 9999 ==> c < 10;
  }

  /** The inverse of IntToDecimal on its range; None for anything it does not produce. */
  function ParseInt(s: string): (r: Option<int>)
  {
    if |s| >= 2 && s[0] == '-' && AllDigits(s[1..]) then Some(-(ParseDecimal(s[1..]) as int))
    else if |s| >= 1 && AllDigits(s) then Some(ParseDecimal(s))
    else None
  }

  lemma IntDecimalRoundTrip(i: int)
    ensures ParseInt(IntToDecimal(i)) == Some(i)
  {
    if i < 0 {
      var m: nat := -i;
      assert IntToDecimal(i) == "-" + NatToDecimal(m);
      ParseNatToDecimal(m);
      ParseIntMinus(NatToDecimal(m));
    } else {
      var m: nat := i;
      assert IntToDecimal(i) == NatToDecimal(m);
      ParseNatToDecimal(m);
      ParseIntDigits(NatToDecimal(m));
    }
  }

  lemma ParseIntDigits(d: string)
    requires |d| >= 1 && AllDigits(d)
    ensures ParseInt(d) == Some(ParseDecimal(d))
  {
    assert IsDigit(d[0]);
  }

  lemma ParseIntMinus(d: string)
    requires |d| >= 1 && AllDigits(d)
    ensures ParseInt("-" + d) == Some(-(ParseDecimal(d) as int))
  {
    assert ("-" + d)[1..] == d;
  }

  /** Distinct integers have distinct renderings. */
  lemma IntToDecimalInjective(a: int, b: int)
    requires IntToDecimal(a) == IntToDecimal(b)
    ensures a == b
  {
    IntDecimalRoundTrip(a);
    IntDecimalRoundTrip(b);
  }

  /** `String(n).padStart(2, "0")`. */
  function Pad2(n: nat): (r: string)
    ensures |r| >= 2 && AllDigits(r)
    ensures n < 100 ==> |r| == 2
  {
    var s := NatToDecimal(n);
    if |s| < 2 then "0" + s else s
  }

  /** Zero-padding keeps the value. */
  lemma Pad2Value(n: nat)
    ensures ParseDecimal(Pad2(n)) == n
  {
    var s := NatToDecimal(n);
    ParseNatToDecimal(n);
    if |s| < 2 {
      assert Pad2(n) == "0" + s && |s| == 1;
      assert ("0" + s)[..1] == "0";
    }
  }
}
