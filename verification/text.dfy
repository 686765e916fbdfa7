/**
 The handful of JavaScript string operations the tarot app relies on,
 written out over `seq<char>`: the whitespace class shared by
 `String.prototype.trim` and the regular-expression class `\s`, ASCII
 `toLowerCase`, `trim`, `String(n)` for naturals, `padStart(2, '0')`,
 `startsWith`, `indexOf`, `replace` with a string pattern, the global
 replacement `/\s+/g -> '-'`, and `join` / `split` on a one-character
 separator.
 */
module Text {

  /* ----------------------------- whitespace ----------------------------- */

  /** The ECMAScript WhiteSpace and LineTerminator code points: the characters
      `trim` removes and `\s` matches. */
  predicate IsWhitespace(c: char) {
    || c == '\t' || c == '\n' || c == '\U{000B}' || c == '\U{000C}' || c == '\r'
    || c == ' ' || c == '\U{00A0}' || c == '\U{1680}'
    || ('\U{2000}' <= c <= '\U{200A}')
    || c == '\U{2028}' || c == '\U{2029}' || c == '\U{202F}' || c == '\U{205F}'
    || c == '\U{3000}' || c == '\U{FEFF}'
  }

  predicate AllWhitespace(s: string) {
    forall i :: 0 <= i < |s| ==> IsWhitespace(s[i])
  }

  predicate NoWhitespace(s: string) {
    forall i :: 0 <= i < |s| ==> !IsWhitespace(s[i])
  }

  /** Drops the leading whitespace run. */
  function TrimStart(s: string): (r: string)
    ensures |r| <= |s| && r == s[|s| - |r|..]
    ensures r == [] || !IsWhitespace(r[0])
    ensures AllWhitespace(s[..|s| - |r|])
  {
    if |s| > 0 && IsWhitespace(s[0]) then
      var r := TrimStart(s[1..]);
      assert s[..|s| - |r|] == [s[0]] + s[1..][..|s| - 1 - |r|];
      r
    else s
  }

  /** Drops the trailing whitespace run. */
  function TrimEnd(s: string): (r: string)
    ensures |r| <= |s| && r == s[..|r|]
    ensures r == [] || !IsWhitespace(r[|r| - 1])
    ensures AllWhitespace(s[|r|..])
  {
    if |s| > 0 && IsWhitespace(s[|s| - 1]) then
      var r := TrimEnd(s[..|s| - 1]);
      assert s[|r|..] == s[..|s| - 1][|r|..] + [s[|s| - 1]];
      r
    else s
  }

  /** `s.trim()` */
  function Trim(s: string): string {
    TrimEnd(TrimStart(s))
  }

  /** `trim` yields the empty string exactly when every character is whitespace. */
  lemma {:induction false} TrimEmptyIffAllWhitespace(s: string)
    ensures Trim(s) == [] <==> AllWhitespace(s)
  {
    var t := TrimStart(s);
    assert s == s[..|s| - |t|] + t;
    if Trim(s) == [] {
      assert t == [] by {
        assert t[|TrimEnd(t)|..] == t;
      }
      assert s[..|s|] == s;
    } else {
      var u := TrimEnd(t);
      assert u[0] == t[0] && !IsWhitespace(s[|s| - |t|]);
    }
  }

  /** The result of `trim` neither starts nor ends with whitespace. */
  lemma TrimHasNoOuterWhitespace(s: string)
    ensures var r := Trim(s); r == [] || (!IsWhitespace(r[0]) && !IsWhitespace(r[|r| - 1]))
  {
    var t := TrimStart(s);
    var r := TrimEnd(t);
    if r != [] {
      assert r[0] == t[0];
    }
  }

  /* ------------------------------ lower case ----------------------------- */

  function LowerChar(c: char): char {
    if 'A' <= c <= 'Z' then (c as int + 32) as char else c
  }

  predicate IsUpper(c: char) {
    'A' <= c <= 'Z'
  }

  predicate NoUpper(s: string) {
    forall i :: 0 <= i < |s| ==> !IsUpper(s[i])
  }

  /** `s.toLowerCase()` restricted to the ASCII letters. */
  function ToLower(s: string): (r: string)
    ensures |r| == |s|
    ensures NoUpper(r)
    ensures forall i :: 0 <= i < |s| ==> (IsWhitespace(r[i]) <==> IsWhitespace(s[i]))
    ensures forall i :: 0 <= i < |s| && !IsUpper(s[i]) ==> r[i] == s[i]
    ensures forall i :: 0 <= i < |s| && IsUpper(s[i]) ==> r[i] as int == s[i] as int + 32
  {
    seq(|s|, i requires 0 <= i < |s| => LowerChar(s[i]))
  }

  /** Lower-casing twice is lower-casing once. */
  lemma ToLowerIdempotent(s: string)
    ensures ToLower(ToLower(s)) == ToLower(s)
  {
  }

  /** Lower-casing works character by character, so it distributes over
      concatenation. */
  lemma ToLowerConcat(a: string, b: string)
    ensures ToLower(a + b) == ToLower(a) + ToLower(b)
  {
  }

  /* ----------------------------- numbers -------------------------------- */

  predicate IsDigit(c: char) {
    '0' <= c <= '9'
  }

  function DigitChar(d: nat): (c: char)
    requires d < 10
    ensures IsDigit(c) && c as int - '0' as int == d
  {
    ('0' as int + d) as char
  }

  function DigitValue(c: char): (d: nat)
    requires IsDigit(c)
    ensures d < 10 && DigitChar(d) == c
  {
    c as int - '0' as int
  }

  predicate AllDigits(s: string) {
    forall i :: 0 <= i < |s| ==> IsDigit(s[i])
  }

  /** `String(n)` for a natural number: its decimal digits, most significant
      first, without leading zeros. */
  function NatToString(n: nat): (r: string)
    ensures |r| > 0 && AllDigits(r)
    ensures r[0] == '0' ==> n == 0
    ensures n < 10 <==> |r| == 1
    ensures n >= 10 ==> |r| >= 2
  {
    if n < 10 then [DigitChar(n)] else NatToString(n / 10) + [DigitChar(n % 10)]
  }

  /** Reads a string of decimal digits back as a natural number. */
  function ParseNat(s: string): nat
    requires AllDigits(s)
  {
    if s == [] then 0 else 10 * ParseNat(s[..|s| - 1]) + DigitValue(s[|s| - 1])
  }

  /** `String(n)` is undone by reading its digits back. */
  lemma {:induction false} ParseNatToString(n: nat)
    ensures ParseNat(NatToString(n)) == n
  {
    var s := NatToString(n);
    if n >= 10 {
      assert s[..|s| - 1] == NatToString(n / 10);
      ParseNatToString(n / 10);
    }
  }

  /** Distinct naturals print as distinct strings. */
  lemma NatToStringInjective(m: nat, n: nat)
    requires NatToString(m) == NatToString(n)
    ensures m == n
  {
    ParseNatToString(m);
    ParseNatToString(n);
  }

  /** The two decimal digits of a number below 100, tens first. */
  function TwoDigits(n: nat): (r: string)
    requires n < 100
    ensures |r| == 2 && AllDigits(r)
  {
    [DigitChar(n / 10), DigitChar(n % 10)]
  }

  /** `s.padStart(width, '0')`: zeros are prepended until the string has
      `width` characters; a string already that long is unchanged. */
  function PadStartZero(s: string, width: nat): (r: string)
    ensures |s| >= width ==> r == s
    ensures |s| < width ==> |r| == width
    ensures r[|r| - |s|..] == s
    ensures forall i :: 0 <= i < |r| - |s| ==> r[i] == '0'
  {
    if |s| >= width then s
    else
      var zeros := seq(width - |s|, _ => '0');
      assert (zeros + s)[|zeros|..] == s;
      zeros + s
  }

  /** `String(n).padStart(2, '0')` is the two-digit form of any `n < 100`. */
  lemma PaddedTwoDigits(n: nat)
    ensures n < 100 ==> PadStartZero(NatToString(n), 2) == TwoDigits(n)
  {
    var s := NatToString(n);
    var r := PadStartZero(s, 2);
    if n >= 100 {
    } else if n >= 10 {
      assert s == NatToString(n / 10) + [DigitChar(n % 10)];
      assert NatToString(n / 10) == [DigitChar(n / 10)];
    } else {
      assert s == [DigitChar(n)];
      assert r == ['0'] + s;
      assert n / 10 == 0 && n % 10 == n;
    }
  }

  /* ------------------------- searching and replacing ---------------------- */

  predicate StartsWith(s: string, prefix: string) {
    |prefix| <= |s| && s[..|prefix|] == prefix
  }

  predicate OccursAt(s: string, pat: string, i: nat) {
    i + |pat| <= |s| && s[i..i + |pat|] == pat
  }

  /** The first index at or after `from` where `pat` occurs in `s`. */
  function IndexOfFrom(s: string, pat: string, from: nat): (r: int)
    requires from <= |s|
    ensures -1 <= r <= |s|
    ensures r >= 0 ==> from <= r && OccursAt(s, pat, r)
    ensures r >= 0 ==> forall j :: from <= j < r ==> !OccursAt(s, pat, j)
    ensures r == -1 ==> forall j :: from <= j <= |s| ==> !OccursAt(s, pat, j)
    decreases |s| - from
  {
    if OccursAt(s, pat, from) then from
    else if from == |s| then -1
    else IndexOfFrom(s, pat, from + 1)
  }

  /** `s.indexOf(pat)`: the first occurrence, or -1. */
  function IndexOf(s: string, pat: string): int
  {
    IndexOfFrom(s, pat, 0)
  }

  /** `s.replace(pat, rep)` with a string pattern: only the first occurrence
      is replaced; without one, `s` is returned unchanged. */
  function ReplaceFirst(s: string, pat: string, rep: string): (r: string)
    ensures (forall j :: 0 <= j <= |s| ==> !OccursAt(s, pat, j)) ==> r == s
    ensures StartsWith(s, pat) ==> r == rep + s[|pat|..]
  {
    var i := IndexOf(s, pat);
    if i < 0 then s else s[..i] + rep + s[i + |pat|..]
  }

  /* --------------------- `replace(/\s+/g, '-')` ------------------------- */

  /** Every maximal run of whitespace becomes one hyphen. */
  function HyphenateWhitespace(s: string): (r: string)
    ensures NoWhitespace(r)
    ensures |r| <= |s|
    decreases |s|
  {
    if s == [] then []
    else if IsWhitespace(s[0]) then "-" + HyphenateWhitespace(TrimStart(s))
    else [s[0]] + HyphenateWhitespace(s[1..])
  }

  /** A leading non-whitespace character is copied. */
  lemma HyphenateCopies(s: string)
    requires s != [] && !IsWhitespace(s[0])
    ensures HyphenateWhitespace(s) == [s[0]] + HyphenateWhitespace(s[1..])
  {
  }

  /** A leading whitespace run becomes one hyphen. */
  lemma HyphenateGap(s: string)
    requires s != [] && IsWhitespace(s[0])
    ensures HyphenateWhitespace(s) == "-" + HyphenateWhitespace(TrimStart(s))
  {
  }

  /** A whitespace-free string is left alone. */
  lemma {:induction false} HyphenateNoWhitespace(s: string)
    requires NoWhitespace(s)
    ensures HyphenateWhitespace(s) == s
  {
    if s != [] {
      HyphenateNoWhitespace(s[1..]);
    }
  }

  /** A whitespace-free prefix passes through unchanged. */
  lemma {:induction false} HyphenateWordPrefix(w: string, s: string)
    requires NoWhitespace(w)
    ensures HyphenateWhitespace(w + s) == w + HyphenateWhitespace(s)
  {
    if w != [] {
      var ws, hs, w' := w + s, HyphenateWhitespace(s), w[1..];
      assert ws[0] == w[0] && ws[1..] == w' + s;
      assert NoWhitespace(w') by {
        assert forall i :: 0 <= i < |w'| ==> w'[i] == w[i + 1];
      }
      HyphenateWordPrefix(w', s);
      HyphenateCopies(ws);
      assert [w[0]] + (w' + hs) == w + hs;
    } else {
      assert w + s == s;
    }
  }

  /** A whitespace run between two words becomes exactly one hyphen. */
  lemma HyphenateJoin(w: string, gap: string, s: string)
    requires NoWhitespace(w) && gap != [] && AllWhitespace(gap)
    requires s == [] || !IsWhitespace(s[0])
    ensures HyphenateWhitespace(w + gap + s) == w + "-" + HyphenateWhitespace(s)
  {
    var g := gap + s;
    HyphenateWordPrefix(w, g);
    assert w + gap + s == w + g;
    assert g[0] == gap[0];
    HyphenateGap(g);
    TrimStartWhitespaceRun(gap, s);
    assert w + ("-" + HyphenateWhitespace(s)) == w + "-" + HyphenateWhitespace(s);
  }

  /** Three words separated by single spaces hyphenate to the words
      separated by single hyphens. */
  lemma HyphenateThreeWords(a: string, b: string, c: string)
    requires NoWhitespace(a) && NoWhitespace(b) && NoWhitespace(c)
    requires b != [] && c != []
    ensures HyphenateWhitespace(a + " " + (b + " " + c)) == a + "-" + (b + "-" + c)
  {
    HyphenateJoin(b, " ", c);
    HyphenateNoWhitespace(c);
    var rest := b + " " + c;
    assert rest[0] == b[0];
    HyphenateJoin(a, " ", rest);
  }

  lemma {:induction false} TrimStartWhitespaceRun(gap: string, s: string)
    requires AllWhitespace(gap)
    requires s == [] || !IsWhitespace(s[0])
    ensures TrimStart(gap + s) == s
  {
    if gap != [] {
      assert (gap + s)[1..] == gap[1..] + s;
      TrimStartWhitespaceRun(gap[1..], s);
    }
  }

  /** Hyphenation introduces no upper-case letters. */
  lemma {:induction false} HyphenateKeepsLower(s: string)
    requires NoUpper(s)
    ensures NoUpper(HyphenateWhitespace(s))
    decreases |s|
  {
    if s != [] {
      if IsWhitespace(s[0]) {
        var t := TrimStart(s);
        assert forall i :: 0 <= i < |t| ==> t[i] == s[|s| - |t| + i];
        HyphenateKeepsLower(t);
      } else {
        HyphenateKeepsLower(s[1..]);
      }
    }
  }

  /* ------------------------------ join / split ------------------------------ */

  /** The first position of `c` in `s`. */
  function FirstIndex(s: string, c: char): (i: nat)
    requires c in s
    ensures i < |s| && s[i] == c && c !in s[..i]
  {
    if s[0] == c then 0 else
      assert c in s[1..] by { assert s == [s[0]] + s[1..]; }
      var j := FirstIndex(s[1..], c);
      assert s[..j + 1] == [s[0]] + s[1..][..j];
      j + 1
  }

  /** `lines.join(sep)` */
  function Join(lines: seq<string>, sep: string): string
  {
    if |lines| == 0 then ""
    else if |lines| == 1 then lines[0]
    else lines[0] + sep + Join(lines[1..], sep)
  }

  /** `s.split(sep)` for a one-character separator. */
  function Split(s: string, sep: char): (r: seq<string>)
    ensures |r| > 0
    ensures forall k :: 0 <= k < |r| ==> sep !in r[k]
  {
    if sep !in s then [s]
    else
      var i := FirstIndex(s, sep);
      [s[..i]] + Split(s[i + 1..], sep)
  }

  /** In `l + [sep] + rest` with no separator in `l`, the first separator
      is the one after `l`, so splitting cuts `l` off. */
  lemma SplitAfter(l: string, sep: char, rest: string)
    requires sep !in l
    ensures Split(l + [sep] + rest, sep) == [l] + Split(rest, sep)
  {
    var s := l + [sep] + rest;
    assert s[|l|] == sep;
    assert s[..|l|] == l;
    assert s[|l| + 1..] == rest;
    assert FirstIndex(s, sep) == |l|;
  }

  /** Splitting on the separator undoes joining with it, as long as there is
      at least one line and no line holds the separator. */
  lemma {:induction false} SplitJoin(lines: seq<string>, sep: char)
    requires |lines| > 0
    requires forall k :: 0 <= k < |lines| ==> sep !in lines[k]
    ensures Split(Join(lines, [sep]), sep) == lines
  {
    if |lines| > 1 {
      var tail := lines[1..];
      var rest := Join(tail, [sep]);
      assert Join(lines, [sep]) == lines[0] + [sep] + rest;
      assert sep !in lines[0];
      SplitAfter(lines[0], sep, rest);
      assert forall k :: 0 <= k < |tail| ==> tail[k] == lines[k + 1];
      SplitJoin(tail, sep);
      assert lines == [lines[0]] + tail;
    }
  }
}
