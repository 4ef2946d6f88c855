/** The pieces of Python's string handling the handlers rely on:
  * `str.strip()` and `str.split()` (both on Python's whitespace characters),
  * `str.isdigit()` and `int()` on a digit string. Strings are sequences of
  * Unicode code points, as Python's are. */
module Text {

  /** Python's `str.isspace()` characters. */
  predicate IsSpace(c: char)
  {
    || c == ' ' || ('\t' <= c <= '\r') || ('\U{1C}' <= c <= '\U{1F}')
    || c == '\U{85}' || c == '\U{A0}' || c == '\U{1680}'
    || ('\U{2000}' <= c <= '\U{200A}')
    || c == '\U{2028}' || c == '\U{2029}' || c == '\U{202F}' || c == '\U{205F}' || c == '\U{3000}'
  }

  /** Neither the first nor the last character is whitespace. */
  predicate NoOuterSpace(s: string)
  {
    s == [] || (!IsSpace(s[0]) && !IsSpace(s[|s| - 1]))
  }

  /** A non-empty string without whitespace: what `str.split()` yields. */
  predicate IsWord(w: string)
  {
    w != [] && forall i :: 0 <= i < |w| ==> !IsSpace(w[i])
  }

  /** `str.lstrip()`: the suffix left after dropping leading whitespace. */
  function LStrip(s: string): (r: string)
    ensures |r| <= |s| && r == s[|s| - |r|..]
    ensures forall i :: 0 <= i < |s| - |r| ==> IsSpace(s[i])
    ensures r == [] || !IsSpace(r[0])
  {
    if s != [] && IsSpace(s[0]) then
      var r := LStrip(s[1..]);
      assert forall i :: 1 <= i < |s| - |r| ==> s[i] == s[1..][i - 1];
      r
    else s
  }

  /** `str.rstrip()`: the prefix left after dropping trailing whitespace. */
  function RStrip(s: string): (r: string)
    ensures |r| <= |s| && r == s[..|r|]
    ensures forall i :: |r| <= i < |s| ==> IsSpace(s[i])
    ensures r == [] || !IsSpace(r[|r| - 1])
  {
    if s != [] && IsSpace(s[|s| - 1]) then RStrip(s[..|s| - 1]) else s
  }

  /** `str.strip()`. */
  function Strip(s: string): (r: string)
    ensures NoOuterSpace(r)
    ensures |r| <= |s|
  {
    RStrip(LStrip(s))
  }

  /** What `strip` removes: `r` is the slice of `s` after the `d` leading
    * characters `lstrip` drops, and every character outside that slice is
    * whitespace. As `r` has no outer whitespace, it is the largest such
    * slice, so a string of whitespace strips to nothing. */
  lemma StripSlice(s: string)
    ensures var r, d := Strip(s), |s| - |LStrip(s)|;
      && d + |r| <= |s| && r == s[d..d + |r|]
      && (forall i :: 0 <= i < d ==> IsSpace(s[i]))
      && (forall i :: d + |r| <= i < |s| ==> IsSpace(s[i]))
  {
    var l := LStrip(s);
    var r := RStrip(l);
    var d := |s| - |l|;
    assert l == s[d..];
    assert r == l[..|r|];
    forall i | d + |r| <= i < |s|
      ensures IsSpace(s[i])
    {
      assert s[i] == l[i - d];
    }
  }

  /** Stripping a string that has no outer whitespace leaves it as it is. */
  lemma StripKeeps(s: string)
    requires NoOuterSpace(s)
    ensures Strip(s) == s
  {
  }

  /** Leading whitespace of a concatenation: once the left part has a
    * non-space character, the right part is kept whole. */
  lemma {:induction false} LStripAppend(b: string, t: string)
    ensures LStrip(b + t) == if LStrip(b) == [] then LStrip(t) else LStrip(b) + t
  {
    if b != [] {
      assert (b + t)[0] == b[0];
      if IsSpace(b[0]) {
        assert (b + t)[1..] == b[1..] + t;
        LStripAppend(b[1..], t);
      }
    } else {
      assert b + t == t;
    }
  }

  /** A string that does not end in whitespace loses only its leading whitespace. */
  lemma StripNoTrailing(b: string)
    requires b == [] || !IsSpace(b[|b| - 1])
    ensures Strip(b) == LStrip(b)
  {
    var l := LStrip(b);
    assert l == [] || l[|l| - 1] == b[|b| - 1];
  }

  lemma LStripSpaceThen(f: char)
    requires !IsSpace(f)
    ensures LStrip([' ', f]) == [f]
  {
    assert [' ', f][1..] == [f];
  }

  /** `(b + ' ' + f).strip()` where `f` is one non-space character and `b`
    * does not end in whitespace: the same as joining `f` to the stripped
    * `b`, which is just `f` when `b` strips to nothing. */
  lemma StripAppendChar(b: string, f: char)
    requires !IsSpace(f)
    requires b == [] || !IsSpace(b[|b| - 1])
    ensures Strip(b + [' ', f]) == Strip(Strip(b) + [' ', f])
    ensures Strip(b + [' ', f]) == if Strip(b) == [] then [f] else Strip(b) + [' ', f]
  {
    var l := LStrip(b);
    StripNoTrailing(b);
    LStripSpaceThen(f);
    LStripAppend(b, [' ', f]);
    LStripAppend(l, [' ', f]);
    var j := l + [' ', f];
    StripNoTrailing(j);
    StripNoTrailing([f]);
  }

  /** The leading word of a string, up to the first whitespace. */
  function TakeWord(s: string): (w: string)
    ensures |w| <= |s| && w == s[..|w|]
    ensures forall i :: 0 <= i < |w| ==> !IsSpace(w[i])
    ensures |w| == |s| || IsSpace(s[|w|])
  {
    if s == [] || IsSpace(s[0]) then [] else [s[0]] + TakeWord(s[1..])
  }

  /** `str.split()` with no separator: the maximal runs of non-whitespace. */
  function Words(s: string): seq<string>
    decreases |s|
  {
    var t := LStrip(s);
    if t == [] then []
    else
      var w := TakeWord(t);
      assert |w| > 0;
      [w] + Words(t[|w|..])
  }

  lemma {:induction false} TakeWordOf(w: string, rest: string)
    requires forall i :: 0 <= i < |w| ==> !IsSpace(w[i])
    requires rest == [] || IsSpace(rest[0])
    ensures TakeWord(w + rest) == w
  {
    if w == [] {
      assert w + rest == rest;
    } else {
      assert (w + rest)[0] == w[0];
      assert (w + rest)[1..] == w[1..] + rest;
      TakeWordOf(w[1..], rest);
    }
  }

  lemma WordsOfWord(w: string)
    requires IsWord(w)
    ensures Words(w) == [w]
  {
    TakeWordOf(w, []);
    assert w + [] == w;
    assert w[|w|..] == [];
  }

  /** A space then a word splits into that word. */
  lemma WordsAfterSpace(b: string)
    requires IsWord(b)
    ensures Words([' '] + b) == [b]
  {
    var rest := [' '] + b;
    assert rest[1..] == b;
    assert LStrip(rest) == b;
    WordsOfWord(b);
  }

  /** Two words joined by one space split back into those two words. */
  lemma WordsOfPair(a: string, b: string)
    requires IsWord(a) && IsWord(b)
    ensures Words(a + [' '] + b) == [a, b]
  {
    var s := a + [' '] + b;
    assert s == a + ([' '] + b);
    assert s[0] == a[0];
    assert LStrip(s) == s;
    TakeWordOf(a, [' '] + b);
    assert s[|a|..] == [' '] + b;
    WordsAfterSpace(b);
  }

  predicate IsDigit(c: char)
  {
    '0' as int <= c as int <= '9' as int
  }

  /** `str.isdigit()`, on ASCII digits. */
  predicate IsDigits(s: string)
  {
    s != [] && forall i :: 0 <= i < |s| ==> IsDigit(s[i])
  }

  /** `int(s)` on a string of decimal digits. */
  function DigitsValue(s: string): nat
    requires forall i :: 0 <= i < |s| ==> IsDigit(s[i])
  {
    if s == [] then 0
    else
      assert IsDigit(s[|s| - 1]);
      DigitsValue(s[..|s| - 1]) * 10 + (s[|s| - 1] as int - '0' as int)
  }

  /** The decimal rendering of a natural number, without leading zeros. */
  function Decimal(n: nat): (s: string)
    ensures IsDigits(s)
    ensures |s| > 1 ==> s[0] != '0'
  {
    if n < 10 then [('0' as int + n) as char]
    else Decimal(n / 10) + [('0' as int + n % 10) as char]
  }

  /** `int()` reads back what `Decimal` writes. */
  lemma {:induction false} DecimalRoundTrip(n: nat)
    ensures DigitsValue(Decimal(n)) == n
  {
    if n >= 10 {
      var s := Decimal(n);
      assert s[..|s| - 1] == Decimal(n / 10);
      DecimalRoundTrip(n / 10);
    }
  }

  /** A digit string reads as zero exactly when every digit is '0'. */
  lemma {:induction false} ZeroValueIffZeros(s: string)
    requires forall i :: 0 <= i < |s| ==> IsDigit(s[i])
    ensures DigitsValue(s) == 0 <==> forall i :: 0 <= i < |s| ==> s[i] == '0'
  {
    if s != [] {
      var p := s[..|s| - 1];
      assert forall i :: 0 <= i < |p| ==> p[i] == s[i];
      assert IsDigit(s[|s| - 1]);
      ZeroValueIffZeros(p);
    }
  }

  /** `" ".join(cs)` for a sequence of one-character strings. */
  function JoinChars(cs: seq<char>): (r: string)
    ensures |r| == if cs == [] then 0 else 2 * |cs| - 1
    ensures (forall i :: 0 <= i < |cs| ==> !IsSpace(cs[i])) ==> NoOuterSpace(r)
  {
    if |cs| <= 1 then cs else JoinChars(cs[..|cs| - 1]) + [' ', cs[|cs| - 1]]
  }
}
