/** String helpers with Python `str` semantics: code-point order, `split`,
    `strip`, `lower` (Latin and basic Cyrillic capitals), `replace` and `str.format` with a
    single `{name}` field. */
module Text {
  import opened Wrappers

  // ---------------------------------------------------------------------------
  // Lexicographic order (Python's `<` on str)
  // ---------------------------------------------------------------------------

  /** Python's `a < b` on strings: code-point lexicographic order, where a proper
      prefix is smaller. (Dafny's own `<` on sequences means "proper prefix".) */
  predicate Lt(a: string, b: string)
    decreases |a|
  {
    if |a| == 0 then |b| > 0
    else if |b| == 0 then false
    else if a[0] < b[0] then true
    else if a[0] > b[0] then false
    else Lt(a[1..], b[1..])
  }

  /** Python's `a <= b` on strings. */
  predicate Le(a: string, b: string) {
    !Lt(b, a)
  }

  lemma {:induction false} LtIrreflexive(a: string)
    ensures !Lt(a, a)
    decreases |a|
  {
    if |a| > 0 {
      LtIrreflexive(a[1..]);
    }
  }

  lemma {:induction false} LtTransitive(a: string, b: string, c: string)
    requires Lt(a, b) && Lt(b, c)
    ensures Lt(a, c)
    decreases |a|
  {
    if |a| > 0 && a[0] == b[0] && b[0] == c[0] {
      LtTransitive(a[1..], b[1..], c[1..]);
    }
  }

  /** Any two strings are equal or ordered one way: the order is total. */
  lemma {:induction false} LtTrichotomy(a: string, b: string)
    ensures a == b || Lt(a, b) || Lt(b, a)
    decreases |a|
  {
    if |a| > 0 && |b| > 0 && a[0] == b[0] {
      LtTrichotomy(a[1..], b[1..]);
      if a[1..] == b[1..] {
        assert a == [a[0]] + a[1..] && b == [b[0]] + b[1..];
      }
    }
  }

  lemma LtAsymmetric(a: string, b: string)
    requires Lt(a, b)
    ensures !Lt(b, a)
  {
    if Lt(b, a) {
      LtTransitive(a, b, a);
      LtIrreflexive(a);
    }
  }

  lemma LeTransitive(a: string, b: string, c: string)
    requires Le(a, b) && Le(b, c)
    ensures Le(a, c)
  {
    if Lt(c, a) {
      LtTrichotomy(a, b);
      if Lt(a, b) { LtTransitive(c, a, b); }
      else if a == b { }
      else { }
    }
  }

  lemma LeTotal(a: string, b: string)
    ensures Le(a, b) || Le(b, a)
  {
    if Lt(b, a) { LtAsymmetric(b, a); }
  }

  // ---------------------------------------------------------------------------
  // Searching and splitting
  // ---------------------------------------------------------------------------

  predicate StartsWith(s: string, prefix: string) {
    |prefix| <= |s| && s[..|prefix|] == prefix
  }

  /** Python's `sub in s` for strings: `sub` occurs contiguously in `s`. */
  predicate IsSubstring(sub: string, s: string) {
    exists i :: 0 <= i <= |s| - |sub| && OccursAt(sub, s, i)
  }

  predicate OccursAt(sub: string, s: string, i: int)
    requires 0 <= i <= |s| - |sub|
  {
    s[i..i + |sub|] == sub
  }

  /** Python's `s.split(sep)` for a one-character separator. */
  function Split(s: string, sep: char): (parts: seq<string>)
    ensures |parts| >= 1
    ensures forall k :: 0 <= k < |parts| ==> sep !in parts[k]
    decreases |s|
  {
    if |s| == 0 then [""]
    else if s[0] == sep then [""] + Split(s[1..], sep)
    else
      var rest := Split(s[1..], sep);
      [[s[0]] + rest[0]] + rest[1..]
  }

  /** Python's `sep.join(parts)`. */
  function Join(parts: seq<string>, sep: char): string
    decreases |parts|
  {
    if |parts| == 0 then ""
    else if |parts| == 1 then parts[0]
    else parts[0] + [sep] + Join(parts[1..], sep)
  }

  /** Splitting and re-joining on the same separator gives back the string. */
  lemma {:induction false} SplitJoin(s: string, sep: char)
    ensures Join(Split(s, sep), sep) == s
    decreases |s|
  {
    if |s| > 0 {
      SplitJoin(s[1..], sep);
      var rest := Split(s[1..], sep);
      if s[0] == sep {
        assert Split(s, sep) == [""] + rest;
        assert s == [sep] + s[1..];
      } else {
        assert Split(s, sep) == [[s[0]] + rest[0]] + rest[1..];
        if |rest| == 1 {
          assert Join(rest, sep) == rest[0];
        } else {
          assert Join(rest, sep) == rest[0] + [sep] + Join(rest[1..], sep);
          assert ([[s[0]] + rest[0]] + rest[1..])[1..] == rest[1..];
        }
      }
    }
  }

  /** A string without the separator splits into itself alone. */
  lemma {:induction false} SplitNoSeparator(s: string, sep: char)
    requires sep !in s
    ensures Split(s, sep) == [s]
    decreases |s|
  {
    if |s| > 0 {
      SplitNoSeparator(s[1..], sep);
      assert [s[0]] + s[1..] == s;
    }
  }

  /** Splitting `a + [sep] + b` where `a` has no separator. */
  lemma {:induction false} SplitAt(a: string, sep: char, b: string)
    requires sep !in a
    ensures Split(a + [sep] + b, sep) == [a] + Split(b, sep)
    decreases |a|
  {
    if |a| == 0 {
      assert a + [sep] + b == [sep] + b;
      assert ([sep] + b)[1..] == b;
    } else {
      SplitAt(a[1..], sep, b);
      assert (a + [sep] + b)[1..] == a[1..] + [sep] + b;
      assert [a[0]] + a[1..] == a;
    }
  }

  // ---------------------------------------------------------------------------
  // Whitespace, case and replacement
  // ---------------------------------------------------------------------------

  /** Python's `str.isspace` for one character. */
  predicate IsSpace(c: char) {
    ('\t' <= c <= '\r') || ('\U{1C}' <= c <= ' ') || c == '\U{85}' || c == '\U{A0}'
    || c == '\U{1680}' || ('\U{2000}' <= c <= '\U{200A}') || c == '\U{2028}' || c == '\U{2029}'
    || c == '\U{202F}' || c == '\U{205F}' || c == '\U{3000}'
  }

  predicate AllSpace(s: string) {
    forall k :: 0 <= k < |s| ==> IsSpace(s[k])
  }

  function StripLeft(s: string): (r: string)
    ensures |r| <= |s| && r == s[|s| - |r|..]
    ensures |r| > 0 ==> !IsSpace(r[0])
    ensures r == "" <==> AllSpace(s)
    decreases |s|
  {
    if |s| > 0 && IsSpace(s[0]) then
      var r := StripLeft(s[1..]);
      assert AllSpace(s) <==> AllSpace(s[1..]) by {
        if AllSpace(s[1..]) {
          forall k | 0 <= k < |s| ensures IsSpace(s[k]) {
            if k > 0 { assert s[k] == s[1..][k - 1]; }
          }
        }
      }
      r
    else s
  }

  function StripRight(s: string): (r: string)
    ensures |r| <= |s| && r == s[..|r|]
    ensures |r| > 0 ==> !IsSpace(r[|r| - 1])
    ensures r == "" <==> AllSpace(s)
    decreases |s|
  {
    if |s| > 0 && IsSpace(s[|s| - 1]) then
      var r := StripRight(s[..|s| - 1]);
      assert AllSpace(s) <==> AllSpace(s[..|s| - 1]) by {
        if AllSpace(s[..|s| - 1]) {
          forall k | 0 <= k < |s| ensures IsSpace(s[k]) {
            if k < |s| - 1 { assert s[k] == s[..|s| - 1][k]; }
          }
        }
      }
      r
    else s
  }

  /** Python's `s.strip()`: `s` with leading and trailing whitespace removed. */
  function Strip(s: string): (r: string)
    ensures |r| <= |s|
    ensures |r| > 0 ==> !IsSpace(r[0]) && !IsSpace(r[|r| - 1])
    ensures r == "" <==> AllSpace(s)
  {
    var l := StripLeft(s);
    var r := StripRight(l);
    assert |r| > 0 ==> r[0] == l[0];
    assert AllSpace(l) <==> l == "";
    r
  }

  /** The lower-case form of one character, as Python's `str.lower()` gives
      it for the Basic Latin, Latin-1 and Latin Extended-A blocks and the
      basic Cyrillic capitals U+0400-U+042F.
      Capital dotted I ('İ') becomes two characters, 'i' and a combining dot
      above; characters of other blocks are kept. */
  function LowerChar(c: char): (r: string)
    ensures 1 <= |r| <= 2
    ensures c < '\U{80}' ==> r == (if 'A' <= c <= 'Z' then [(c as int + 32) as char] else [c])
  {
    if 'A' <= c <= 'Z' || ('\U{C0}' <= c <= '\U{DE}' && c != '\U{D7}') || '\U{410}' <= c <= '\U{42F}' then
      [(c as int + 32) as char]
    else if '\U{400}' <= c <= '\U{40F}' then [(c as int + 80) as char]
    else if c == '\U{130}' then "i\U{307}"
    else if c == '\U{178}' then ['\U{FF}']
    else if ('\U{100}' <= c <= '\U{12F}' || '\U{132}' <= c <= '\U{137}' || '\U{14A}' <= c <= '\U{177}') && c as int % 2 == 0 then
      [(c as int + 1) as char]
    else if ('\U{139}' <= c <= '\U{148}' || '\U{179}' <= c <= '\U{17E}') && c as int % 2 == 1 then
      [(c as int + 1) as char]
    else [c]
  }

  /** Python's `s.lower()`, character by character through `LowerChar`. */
  function Lower(s: string): (r: string)
    ensures |r| >= |s|
    decreases |s|
  {
    if |s| == 0 then "" else LowerChar(s[0]) + Lower(s[1..])
  }

  /** When each character lowers to one character, `Lower` works position
      by position. */
  lemma {:induction false} LowerBySingles(s: string, t: string)
    requires |s| == |t|
    requires forall k :: 0 <= k < |s| ==> LowerChar(s[k]) == [t[k]]
    ensures Lower(s) == t
    decreases |s|
  {
    if |s| > 0 {
      assert LowerChar(s[0]) == [t[0]];
      LowerBySingles(s[1..], t[1..]);
      assert t == [t[0]] + t[1..];
    }
  }

  lemma LowerCons(c: char, s: string)
    ensures Lower([c] + s) == LowerChar(c) + Lower(s)
  {
    assert ([c] + s)[1..] == s;
  }

  /** Python's `s.replace(a, b)` for single characters. */
  function ReplaceChar(s: string, a: char, b: char): (r: string)
    ensures |r| == |s|
    ensures forall k :: 0 <= k < |s| ==> r[k] == (if s[k] == a then b else s[k])
  {
    seq(|s|, k requires 0 <= k < |s| => if s[k] == a then b else s[k])
  }

  /** Python's `template.format(name=value)` on templates whose only
      replacement field is a plain `{name}`: it becomes the value, and `{{`
      and `}}` become single braces. `None` is the error Python raises for a
      lone brace or a field naming anything else. Fields Python also accepts
      (a conversion such as `{name!r}`, a format spec such as `{name:>10}`
      or `{name:}`, an index such as `{name[0]}`) are outside this model and
      give `None` too. */
  function FormatName(template: string, value: string): (r: Option<string>)
    ensures '{' !in template && '}' !in template ==> r == Some(template)
    decreases |template|
  {
    if |template| == 0 then Some("")
    else if template[0] == '{' then
      if StartsWith(template, "{name}") then
        match FormatName(template[6..], value)
        case Some(rest) => Some(value + rest)
        case None => None
      else if StartsWith(template, "{{") then
        match FormatName(template[2..], value)
        case Some(rest) => Some("{" + rest)
        case None => None
      else None
    else if template[0] == '}' then
      if StartsWith(template, "}}") then
        match FormatName(template[2..], value)
        case Some(rest) => Some("}" + rest)
        case None => None
      else None
    else
      assert template == [template[0]] + template[1..];
      match FormatName(template[1..], value)
      case Some(rest) => Some([template[0]] + rest)
      case None => None
  }

  // ---------------------------------------------------------------------------
  // Numbers
  // ---------------------------------------------------------------------------

  predicate IsDigit(c: char) {
    '0' <= c <= '9'
  }

  function DigitChar(d: nat): char
    requires d < 10
  {
    ('0' as int + d) as char
  }

  function DigitValue(c: char): nat
    requires IsDigit(c)
  {
    c as int - '0' as int
  }

  /** Decimal rendering of a natural number, as Python's `str(n)`. */
  function NatToString(n: nat): (r: string)
    ensures |r| >= 1
    ensures forall k :: 0 <= k < |r| ==> IsDigit(r[k])
    decreases n
  {
    if n < 10 then [DigitChar(n)] else NatToString(n / 10) + [DigitChar(n % 10)]
  }

  /** Two-digit zero-padded rendering, as `%02d`. */
  function Pad2(n: nat): (r: string)
    requires n < 100
    ensures |r| == 2 && IsDigit(r[0]) && IsDigit(r[1])
    ensures DigitValue(r[0]) * 10 + DigitValue(r[1]) == n
  {
    [DigitChar(n / 10), DigitChar(n % 10)]
  }

  /** Value of a non-empty string of decimal digits. */
  function DigitsValue(s: string): nat
    requires forall k :: 0 <= k < |s| ==> IsDigit(s[k])
    decreases |s|
  {
    if |s| == 0 then 0 else DigitsValue(s[..|s| - 1]) * 10 + DigitValue(s[|s| - 1])
  }

  predicate AllDigits(s: string) {
    forall k :: 0 <= k < |s| ==> IsDigit(s[k])
  }

  /** Python's `int(s)` on the accepted subset: optional surrounding whitespace,
      an optional sign, and one or more ASCII digits. `None` is a ValueError.
      Python also accepts `_` between digits and non-ASCII decimal digits;
      both give `None` here. */
  function ParseInt(s: string): (r: Option<int>)
    ensures r.Some? ==> |Strip(s)| > 0
  {
    var t := Strip(s);
    if |t| == 0 then None
    else
      var body := t[(if t[0] == '-' || t[0] == '+' then 1 else 0)..];
      if |body| > 0 && AllDigits(body)
      then (if t[0] == '-' then Some(0 - DigitsValue(body)) else Some(DigitsValue(body)))
      else None
  }

  /** A string of digits has no surrounding whitespace to strip. */
  lemma StripDigits(s: string)
    requires |s| > 0 && AllDigits(s)
    ensures Strip(s) == s
  {
    assert IsDigit(s[0]) && IsDigit(s[|s| - 1]);
    assert StripLeft(s) == s;
    assert StripRight(s) == s;
  }

  /** A string of digits carries no sign. */
  lemma Unsigned(s: string)
    requires |s| > 0 && AllDigits(s)
    ensures s[0] != '-' && s[(if s[0] == '-' || s[0] == '+' then 1 else 0)..] == s
  {
    assert IsDigit(s[0]);
  }

  /** A plain string of digits parses to its value. */
  lemma ParseDigits(s: string)
    requires |s| > 0 && AllDigits(s)
    ensures ParseInt(s) == Some(DigitsValue(s))
  {
    StripDigits(s);
    Unsigned(s);
  }
}
