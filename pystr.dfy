/**
  The Python `str` operations the scanner is built on, over `string`
  (a sequence of Unicode scalar values): `strip()`, `split('\n')`,
  `split()`, `rsplit(':', 1)`, `lower()` and `int()`.
 */
module PyStr {
  import opened Wrappers

  /** The characters Python's `str.isspace()` accepts; `split()` and
      `strip()` without arguments cut on exactly these. */
  predicate IsSpace(c: char) {
    || ('\t' <= c <= '\r')
    || ('\U{1C}' <= c <= ' ')
    || c == '\U{85}' || c == '\U{A0}' || c == '\U{1680}'
    || ('\U{2000}' <= c <= '\U{200A}')
    || c == '\U{2028}' || c == '\U{2029}' || c == '\U{202F}'
    || c == '\U{205F}' || c == '\U{3000}'
  }

  predicate AllSpace(s: string) {
    forall i :: 0 <= i < |s| ==> IsSpace(s[i])
  }

  predicate NoSpace(s: string) {
    forall i :: 0 <= i < |s| ==> !IsSpace(s[i])
  }

  /** The number of whitespace characters `s` starts with. */
  function LeadingSpace(s: string): (n: nat)
    ensures n <= |s| && AllSpace(s[..n])
    ensures n == |s| || !IsSpace(s[n])
  {
    if s != [] && IsSpace(s[0]) then
      var m := LeadingSpace(s[1..]);
      assert s[..m + 1] == [s[0]] + s[1..][..m];
      m + 1
    else 0
  }

  /** The number of whitespace characters `s` ends with. */
  function TrailingSpace(s: string): (n: nat)
    ensures n <= |s| && AllSpace(s[|s| - n..])
    ensures n == |s| || !IsSpace(s[|s| - n - 1])
  {
    if s != [] && IsSpace(s[|s| - 1]) then
      var m := TrailingSpace(s[..|s| - 1]);
      SpaceSuffixGrows(s, m);
      m + 1
    else 0
  }

  lemma {:induction false} SpaceSuffixGrows(s: string, m: nat)
    requires m < |s| && IsSpace(s[|s| - 1]) && AllSpace(s[..|s| - 1][|s| - 1 - m..])
    ensures AllSpace(s[|s| - m - 1..])
  {
    assert s[|s| - m - 1..] == s[..|s| - 1][|s| - 1 - m..] + [s[|s| - 1]];
  }

  /** `s.lstrip()` */
  function TrimStart(s: string): (r: string)
    ensures r == [] || !IsSpace(r[0])
  {
    s[LeadingSpace(s)..]
  }

  /** `s.rstrip()` */
  function TrimEnd(s: string): (r: string)
    ensures r == [] || !IsSpace(r[|r| - 1])
  {
    s[..|s| - TrailingSpace(s)]
  }

  /** `s.strip()`: empty exactly for an all-whitespace text, and otherwise
      starting and ending with a non-whitespace character. */
  function Strip(s: string): (r: string)
    ensures r == [] <==> AllSpace(s)
    ensures r != [] ==> !IsSpace(r[0]) && !IsSpace(r[|r| - 1])
  {
    var t := TrimStart(s);
    assert AllSpace(s) ==> LeadingSpace(s) == |s|;
    assert t == [] ==> s == s[..LeadingSpace(s)];
    assert t != [] ==> TrailingSpace(t) < |t|;
    TrimEnd(t)
  }

  /** `strip()` keeps a contiguous slice of its input and removes only
      whitespace on either side of it. */
  lemma {:induction false} StripSlice(s: string)
    ensures var i, r := LeadingSpace(s), Strip(s);
            && i + |r| <= |s| && r == s[i..i + |r|]
            && AllSpace(s[..i]) && AllSpace(s[i + |r|..])
  {
    var i := LeadingSpace(s);
    var t := s[i..];
    var k := |t| - TrailingSpace(t);
    assert Strip(s) == t[..k];
    SliceOfSlice(s, i, k);
  }

  lemma {:induction false} SliceOfSlice(s: string, i: nat, k: nat)
    requires i + k <= |s|
    ensures s[i..][..k] == s[i..i + k] && s[i..][k..] == s[i + k..]
  {
  }

  /** A string with no whitespace margins is its own `strip()`. */
  lemma {:induction false} StripUnchanged(s: string)
    requires s == [] || (!IsSpace(s[0]) && !IsSpace(s[|s| - 1]))
    ensures Strip(s) == s
  {
  }

  /** `s.split(sep)` for a one-character separator: never empty, and
      `Split("", sep) == [""]`. */
  function Split(s: string, sep: char): (r: seq<string>)
    ensures |r| >= 1
  {
    if s == [] then [[]]
    else
      var rest := Split(s[1..], sep);
      if s[0] == sep then [[]] + rest
      else [[s[0]] + rest[0]] + rest[1..]
  }

  /** No piece of a split contains the separator. */
  lemma {:induction false} SplitPieces(s: string, sep: char)
    ensures forall p :: p in Split(s, sep) ==> sep !in p
  {
    if s != [] {
      SplitPieces(s[1..], sep);
      var rest := Split(s[1..], sep);
      if s[0] != sep {
        assert rest[0] in rest;
        assert forall p :: p in rest[1..] ==> p in rest;
      }
    }
  }

  /** A text without the separator is a single piece. */
  lemma {:induction false} SplitNoSep(s: string, sep: char)
    requires sep !in s
    ensures Split(s, sep) == [s]
  {
    SplitPrefix(s, sep, []);
    assert s + [] == s;
  }

  /** `sep.join(parts)` for a non-empty list and a one-character separator. */
  function Join(parts: seq<string>, sep: char): string
    requires |parts| >= 1
  {
    if |parts| == 1 then parts[0] else parts[0] + [sep] + Join(parts[1..], sep)
  }

  lemma {:induction false} SplitCons(c: char, x: string, sep: char)
    ensures c == sep ==> Split([c] + x, sep) == [[]] + Split(x, sep)
    ensures c != sep ==> Split([c] + x, sep) == [[c] + Split(x, sep)[0]] + Split(x, sep)[1..]
  {
    assert ([c] + x)[1..] == x;
  }

  /** Splitting and joining back gives the original text. */
  lemma {:induction false} JoinSplit(s: string, sep: char)
    ensures Join(Split(s, sep), sep) == s
  {
    if s != [] {
      var rest := Split(s[1..], sep);
      JoinSplit(s[1..], sep);
      assert s == [s[0]] + s[1..];
      SplitCons(s[0], s[1..], sep);
      if s[0] == sep {
        assert ([[]] + rest)[1..] == rest;
      } else {
        var r := [[s[0]] + rest[0]] + rest[1..];
        if |rest| > 1 {
          assert r[1..] == rest[1..];
        }
      }
    }
  }

  lemma {:induction false} SplitGlue(c: char, x: string, sep: char, first: string, others: seq<string>)
    requires c != sep && Split(x, sep) == [first] + others
    ensures Split([c] + x, sep) == [[c] + first] + others
  {
    SplitCons(c, x, sep);
  }

  lemma {:induction false} SplitPrefixStep(w: string, sep: char, tail: string, pieces: seq<string>)
    requires w != [] && w[0] != sep && |pieces| >= 1
    requires Split(w[1..] + tail, sep) == [w[1..] + pieces[0]] + pieces[1..]
    ensures Split(w + tail, sep) == [w + pieces[0]] + pieces[1..]
  {
    assert w + tail == [w[0]] + (w[1..] + tail);
    SplitGlue(w[0], w[1..] + tail, sep, w[1..] + pieces[0], pieces[1..]);
    assert [w[0]] + (w[1..] + pieces[0]) == w + pieces[0];
  }

  /** A prefix free of the separator stays glued to the first piece of what follows. */
  lemma {:induction false} SplitPrefix(w: string, sep: char, tail: string)
    requires sep !in w
    ensures Split(w + tail, sep) == [w + Split(tail, sep)[0]] + Split(tail, sep)[1..]
  {
    var pieces := Split(tail, sep);
    if w != [] {
      assert w[0] != sep && sep !in w[1..] by { assert w == [w[0]] + w[1..]; }
      SplitPrefix(w[1..], sep, tail);
      SplitPrefixStep(w, sep, tail, pieces);
    } else {
      assert w + tail == tail;
      assert [] + pieces[0] == pieces[0];
      assert pieces == [pieces[0]] + pieces[1..];
    }
  }

  /** Joining pieces free of the separator and splitting again gives the pieces back. */
  lemma {:induction false} SplitJoinStep(w: string, sep: char, tail: string, rest: seq<string>)
    requires sep !in w && Split(tail, sep) == rest
    ensures Split(w + [sep] + tail, sep) == [w] + rest
  {
    SplitCons(sep, tail, sep);
    SplitPrefix(w, sep, [sep] + tail);
    assert w + [sep] + tail == w + ([sep] + tail);
    assert w + [] == w;
  }

  lemma {:induction false} SplitJoin(parts: seq<string>, sep: char)
    requires |parts| >= 1
    requires forall p :: p in parts ==> sep !in p
    ensures Split(Join(parts, sep), sep) == parts
  {
    assert parts[0] in parts;
    if |parts| == 1 {
      SplitNoSep(parts[0], sep);
    } else {
      assert forall p :: p in parts[1..] ==> p in parts;
      SplitJoin(parts[1..], sep);
      SplitJoinStep(parts[0], sep, Join(parts[1..], sep), parts[1..]);
      assert parts == [parts[0]] + parts[1..];
    }
  }

  /** The longest whitespace-free prefix of `s`. */
  function Token(s: string): (r: string)
    ensures |r| <= |s| && r == s[..|r|] && NoSpace(r)
    ensures |r| == |s| || IsSpace(s[|r|])
  {
    if s == [] || IsSpace(s[0]) then [] else [s[0]] + Token(s[1..])
  }

  /** `s.split()`: the maximal runs of non-whitespace, in order. */
  function Words(s: string): (r: seq<string>)
    ensures forall w :: w in r ==> w != [] && NoSpace(w)
    decreases |s|
  {
    var t := TrimStart(s);
    if t == [] then []
    else
      var w := Token(t);
      [w] + Words(t[|w|..])
  }

  /** `" ".join(ws)` */
  function Unwords(ws: seq<string>): string {
    if ws == [] then []
    else if |ws| == 1 then ws[0]
    else ws[0] + ([' '] + Unwords(ws[1..]))
  }

  lemma {:induction false} TokenOf(w: string, tail: string)
    requires NoSpace(w)
    requires tail == [] || IsSpace(tail[0])
    ensures Token(w + tail) == w
  {
    if w != [] {
      assert (w + tail)[1..] == w[1..] + tail;
      TokenOf(w[1..], tail);
      assert w == [w[0]] + w[1..];
    } else {
      assert w + tail == tail;
    }
  }

  lemma {:induction false} WordsSkipSpace(c: char, u: string)
    requires IsSpace(c)
    ensures Words([c] + u) == Words(u)
  {
    assert ([c] + u)[1..] == u;
  }

  /** A whitespace-free word followed by whitespace (or nothing) is the first word. */
  lemma {:induction false} WordsCons(w: string, u: string)
    requires w != [] && NoSpace(w)
    requires u == [] || IsSpace(u[0])
    ensures Words(w + u) == [w] + Words(u)
  {
    var s := w + u;
    assert TrimStart(s) == s;
    TokenOf(w, u);
    assert s[|w|..] == u;
  }

  /** A word, a space and the rest: the word comes first, then the words of the rest. */
  lemma {:induction false} WordsSpaced(w: string, u: string)
    requires w != [] && NoSpace(w)
    ensures Words(w + ([' '] + u)) == [w] + Words(u)
  {
    WordsCons(w, [' '] + u);
    WordsSkipSpace(' ', u);
  }

  /** Splitting a single-space join of whitespace-free words gives the words back. */
  lemma {:induction false} WordsUnwords(ws: seq<string>)
    requires forall w :: w in ws ==> w != [] && NoSpace(w)
    ensures Words(Unwords(ws)) == ws
  {
    if |ws| == 1 {
      assert ws[0] in ws;
      WordsCons(ws[0], []);
      assert ws[0] + [] == ws[0];
    } else if |ws| > 1 {
      var w, rest := ws[0], ws[1..];
      assert w in ws;
      assert forall v :: v in rest ==> v in ws;
      WordsUnwords(rest);
      WordsSpaced(w, Unwords(rest));
      assert ws == [w] + rest;
    }
  }

  /** `s.rsplit(sep, 1)` when `sep in s`: the text before and after the last `sep`. */
  function RSplit(s: string, sep: char): (r: Option<(string, string)>)
    ensures r.Some? <==> sep in s
    ensures r.Some? ==> r.value.0 + [sep] + r.value.1 == s && sep !in r.value.1
  {
    if s == [] then None
    else if s[|s| - 1] == sep then Some((s[..|s| - 1], []))
    else
      match RSplit(s[..|s| - 1], sep)
      case None => None
      case Some((a, b)) =>
        assert s == s[..|s| - 1] + [s[|s| - 1]];
        Some((a, b + [s[|s| - 1]]))
  }

  lemma {:induction false} RSplitLastStep(s: string, sep: char, a: string, b: string)
    requires b != [] && s == a + [sep] + b && b[|b| - 1] != sep
    requires RSplit(s[..|s| - 1], sep) == Some((a, b[..|b| - 1]))
    ensures RSplit(s, sep) == Some((a, b))
  {
    assert s[|s| - 1] == b[|b| - 1];
    assert b == b[..|b| - 1] + [b[|b| - 1]];
  }

  /** The split is at the LAST separator: any decomposition whose right part
      has no separator is the one `RSplit` returns. */
  lemma {:induction false} RSplitLast(s: string, sep: char, a: string, b: string)
    requires s == a + [sep] + b && sep !in b
    ensures RSplit(s, sep) == Some((a, b))
  {
    if b == [] {
      assert s[..|s| - 1] == a;
    } else {
      var b' := b[..|b| - 1];
      assert b == b' + [b[|b| - 1]];
      assert sep !in b' && b[|b| - 1] != sep;
      assert s[..|s| - 1] == a + [sep] + b';
      RSplitLast(s[..|s| - 1], sep, a, b');
      RSplitLastStep(s, sep, a, b);
    }
  }

  function LowerChar(c: char): char {
    if 'A' <= c <= 'Z' then (c as int + 32) as char else c
  }

  /** `s.lower()` restricted to ASCII letters. */
  function Lower(s: string): (r: string)
    ensures |r| == |s|
    ensures forall i :: 0 <= i < |s| ==> r[i] == LowerChar(s[i])
    ensures forall i :: 0 <= i < |r| ==> !('A' <= r[i] <= 'Z')
  {
    if s == [] then [] else [LowerChar(s[0])] + Lower(s[1..])
  }

  predicate IsDigit(c: char) {
    '0' <= c <= '9'
  }

  /** The digit part of an `int()` literal: ASCII digits, with single
      underscores allowed between two digits. */
  predicate IsDigitString(s: string)
    decreases |s|
  {
    && |s| >= 1 && IsDigit(s[0])
    && (|s| == 1 || IsDigitString(s[1..]) || (s[1] == '_' && IsDigitString(s[2..])))
  }

  /** A digit string followed by one more digit is a digit string. */
  lemma {:induction false} DigitStringSnoc(s: string, c: char)
    requires IsDigitString(s) && IsDigit(c)
    ensures IsDigitString(s + [c])
  {
    var t := s + [c];
    if |s| == 1 {
      assert t[1..] == [c];
    } else if IsDigitString(s[1..]) {
      DigitStringSnoc(s[1..], c);
      assert t[1..] == s[1..] + [c];
    } else {
      DigitStringSnoc(s[2..], c);
      assert t[2..] == s[2..] + [c];
    }
  }

  /** The decimal value of the digits of `s`, underscores ignored. */
  function DigitsValue(s: string): nat {
    if s == [] then 0
    else if IsDigit(s[|s| - 1]) then 10 * DigitsValue(s[..|s| - 1]) + (s[|s| - 1] as int - '0' as int)
    else DigitsValue(s[..|s| - 1])
  }

  /** Every character of a digit string is a digit or an underscore. */
  lemma {:induction false} DigitStringChars(s: string)
    requires IsDigitString(s)
    ensures forall i :: 0 <= i < |s| ==> IsDigit(s[i]) || s[i] == '_'
  {
    if |s| > 1 {
      if IsDigitString(s[1..]) {
        DigitStringChars(s[1..]);
        assert forall i :: 1 <= i < |s| ==> s[i] == s[1..][i - 1];
      } else {
        DigitStringChars(s[2..]);
        assert forall i :: 2 <= i < |s| ==> s[i] == s[2..][i - 2];
      }
    }
  }

  /** The ASCII information separators U+001C..U+001F. `strip()` and `split()`
      treat them as whitespace, but `int()` skips only `\t\n\v\f\r`, the
      space and non-ASCII whitespace, so it rejects any text holding one. */
  predicate IsInfoSeparator(c: char) {
    '\U{1C}' <= c <= '\U{1F}'
  }

  predicate HasInfoSeparator(s: string) {
    exists i :: 0 <= i < |s| && IsInfoSeparator(s[i])
  }

  /** `int(s)` in base 10: surrounding whitespace, an optional sign, then a
      digit string; `None` where Python raises `ValueError`. */
  function ParseInt(s: string): (r: Option<int>)
    ensures var t := Strip(s);
            r.Some? <==> && !HasInfoSeparator(s)
                         && (|| IsDigitString(t)
                             || (|t| >= 1 && (t[0] == '+' || t[0] == '-') && IsDigitString(t[1..])))
    ensures r.Some? && IsDigitString(Strip(s)) ==> r.value == DigitsValue(Strip(s))
    ensures r.Some? && r.value < 0 ==> Strip(s)[0] == '-'
  {
    var t := Strip(s);
    if HasInfoSeparator(s) then None
    else if t != [] && (t[0] == '+' || t[0] == '-') then
      if IsDigitString(t[1..]) then
        Some(if t[0] == '-' then -(DigitsValue(t[1..]) as int) else DigitsValue(t[1..]))
      else None
    else if IsDigitString(t) then Some(DigitsValue(t))
    else None
  }

  function DigitChar(d: nat): char
    requires d < 10
  {
    ('0' as int + d) as char
  }

  /** `str(n)` for a natural number. */
  function ShowNat(n: nat): (r: string)
    ensures |r| >= 1
    ensures forall i :: 0 <= i < |r| ==> IsDigit(r[i])
  {
    if n < 10 then [DigitChar(n)] else ShowNat(n / 10) + [DigitChar(n % 10)]
  }

  /** `str(n)` for any integer. */
  function ShowInt(n: int): string {
    if n < 0 then "-" + ShowNat(-n) else ShowNat(n)
  }

  lemma {:induction false} DigitsValueShowNat(n: nat)
    ensures IsDigitString(ShowNat(n))
    ensures DigitsValue(ShowNat(n)) == n
  {
    if n >= 10 {
      DigitsValueShowNat(n / 10);
      var s := ShowNat(n);
      assert s[..|s| - 1] == ShowNat(n / 10);
      DigitStringSnoc(ShowNat(n / 10), DigitChar(n % 10));
    }
  }

  lemma {:induction false} ParseDigits(d: string)
    requires IsDigitString(d) && IsDigit(d[|d| - 1])
    ensures ParseInt(d) == Some(DigitsValue(d))
  {
    StripUnchanged(d);
    DigitStringChars(d);
  }

  lemma {:induction false} ParseNegativeDigits(d: string)
    requires IsDigitString(d) && IsDigit(d[|d| - 1])
    ensures ParseInt("-" + d) == Some(-(DigitsValue(d) as int))
  {
    var s := "-" + d;
    assert s[1..] == d && s[|s| - 1] == d[|d| - 1];
    StripUnchanged(s);
    DigitStringChars(d);
    assert forall i :: 1 <= i < |s| ==> s[i] == d[i - 1];
  }

  /** `int(str(n)) == n`. */
  lemma {:induction false} ParseShowInt(n: int)
    ensures ParseInt(ShowInt(n)) == Some(n)
  {
    var m: nat := if n < 0 then -n else n;
    var digits := ShowNat(m);
    DigitsValueShowNat(m);
    assert IsDigit(digits[|digits| - 1]);
    if n < 0 {
      ParseNegativeDigits(digits);
    } else {
      ParseDigits(digits);
    }
  }
}
