/**
 * String helpers with the meaning JavaScript gives them: `trim`, `split`,
 * `join`, `toLowerCase`/`toUpperCase`, decimal rendering of numbers and
 * `parseInt(s, 10)`. Strings are sequences of Unicode scalar values.
 */
module Text {
  import opened Wrappers

  /* ---------------------------------------------------------------- trim */

  /** The characters `String.prototype.trim` removes: ECMAScript WhiteSpace and LineTerminator. */
  predicate IsWhitespace(c: char) {
    c == ' ' || ('\t' <= c <= '\r') || c == '\U{00A0}' || c == '\U{1680}'
    || ('\U{2000}' <= c <= '\U{200A}') || c == '\U{2028}' || c == '\U{2029}'
    || c == '\U{202F}' || c == '\U{205F}' || c == '\U{3000}' || c == '\U{FEFF}'
  }

  predicate AllWhitespace(s: string) {
    forall i :: 0 <= i < |s| ==> IsWhitespace(s[i])
  }

  /** Drops the leading whitespace: what is removed is all whitespace and what is left starts with none. */
  function TrimStart(s: string): (r: string)
    ensures |r| <= |s| && r == s[|s| - |r|..]
    ensures AllWhitespace(s[..|s| - |r|])
    ensures r == [] || !IsWhitespace(r[0])
  {
    if s != [] && IsWhitespace(s[0]) then TrimStart(s[1..]) else s
  }

  /**
   * `s.trim()`: drops the leading and the trailing whitespace. The result
   * is empty exactly when `s` is all whitespace, and otherwise neither
   * starts nor ends with whitespace.
   */
  function Trim(s: string): (r: string)
    ensures |r| <= |s|
    ensures r == [] <==> AllWhitespace(s)
    ensures r != [] ==> !IsWhitespace(r[0]) && !IsWhitespace(r[|r| - 1])
  {
    if s == [] then s
    else if IsWhitespace(s[0]) then Trim(s[1..])
    else if IsWhitespace(s[|s| - 1]) then Trim(s[..|s| - 1])
    else s
  }

  /** Trimming only removes characters: one absent from `s` is absent from its trim. */
  lemma {:induction false} TrimKeepsOut(s: string, c: char)
    requires c !in s
    ensures c !in Trim(s)
  {
    if s != [] && IsWhitespace(s[0]) {
      assert forall x :: x in s[1..] ==> x in s;
      TrimKeepsOut(s[1..], c);
    } else if s != [] && IsWhitespace(s[|s| - 1]) {
      assert forall x :: x in s[..|s| - 1] ==> x in s;
      TrimKeepsOut(s[..|s| - 1], c);
    }
  }

  /** A trimmed string is its own trim. */
  lemma TrimIdempotent(s: string)
    ensures Trim(Trim(s)) == Trim(s)
  {
  }

  /* --------------------------------------------------------- split/join */

  /** `s.split(sep)` for a one-character separator: at least one part, none containing `sep`. */
  function Split(s: string, sep: char): (parts: seq<string>)
    ensures |parts| >= 1
    ensures forall i :: 0 <= i < |parts| ==> sep !in parts[i]
  {
    if s == [] then [[]]
    else
      var rest := Split(s[1..], sep);
      if s[0] == sep then [[]] + rest else [[s[0]] + rest[0]] + rest[1..]
  }

  /** `parts.join(sep)`. */
  function Join(parts: seq<string>, sep: string): string {
    if parts == [] then []
    else if |parts| == 1 then parts[0]
    else parts[0] + sep + Join(parts[1..], sep)
  }

  /** Splitting and joining back with the same separator gives the original string. */
  lemma {:induction false} JoinSplit(s: string, sep: char)
    ensures Join(Split(s, sep), [sep]) == s
  {
    if s != [] {
      var rest := Split(s[1..], sep);
      JoinSplit(s[1..], sep);
      if s[0] == sep {
        assert Split(s, sep) == [[]] + rest;
        assert Join([[]] + rest, [sep]) == [] + [sep] + Join(rest, [sep]);
      } else if |rest| == 1 {
        assert Split(s, sep) == [[s[0]] + rest[0]];
      } else {
        var parts := [[s[0]] + rest[0]] + rest[1..];
        assert Split(s, sep) == parts;
        assert parts[1..] == rest[1..];
        assert Join(parts, [sep]) == [s[0]] + (rest[0] + [sep] + Join(rest[1..], [sep]));
      }
    }
  }

  /** A prefix free of the separator glues onto the first part. */
  lemma {:induction false} SplitPrefix(x: string, y: string, sep: char)
    requires sep !in x
    ensures Split(x + y, sep) == [x + Split(y, sep)[0]] + Split(y, sep)[1..]
  {
    if x != [] {
      assert (x + y)[1..] == x[1..] + y;
      SplitPrefix(x[1..], y, sep);
      assert [x[0]] + (x[1..] + Split(y, sep)[0]) == x + Split(y, sep)[0];
    } else {
      assert x + y == y;
      var p := Split(y, sep);
      assert x + p[0] == p[0];
      assert p == [p[0]] + p[1..];
    }
  }

  /** Joining parts free of the separator and splitting again gives the parts back. */
  lemma {:induction false} SplitJoin(parts: seq<string>, sep: char)
    requires |parts| >= 1
    requires forall i :: 0 <= i < |parts| ==> sep !in parts[i]
    ensures Split(Join(parts, [sep]), sep) == parts
  {
    if |parts| == 1 {
      SplitPrefix(parts[0], [], sep);
      assert parts[0] + [] == parts[0];
    } else {
      var y := Join(parts[1..], [sep]);
      SplitJoin(parts[1..], sep);
      assert Join(parts, [sep]) == parts[0] + ([sep] + y);
      SplitPrefix(parts[0], [sep] + y, sep);
      assert ([sep] + y)[1..] == y;
      var q := Split([sep] + y, sep);
      assert q == [[]] + Split(y, sep);
      assert q[0] == [] && q[1..] == parts[1..];
      assert parts[0] + q[0] == parts[0];
      assert parts == [parts[0]] + parts[1..];
    }
  }

  /** Keeps the non-empty strings, in order. */
  function DropEmpty(ps: seq<string>): (r: seq<string>)
    ensures |r| <= |ps|
    ensures forall i :: 0 <= i < |r| ==> r[i] != [] && r[i] in ps
    ensures (r == []) <==> (forall i :: 0 <= i < |ps| ==> ps[i] == [])
  {
    if ps == [] then []
    else if ps[0] == [] then DropEmpty(ps[1..])
    else [ps[0]] + DropEmpty(ps[1..])
  }

  /** Trims every string. */
  function TrimEach(ps: seq<string>): (r: seq<string>)
    ensures |r| == |ps|
    ensures forall i :: 0 <= i < |r| ==> r[i] == Trim(ps[i])
  {
    if ps == [] then [] else [Trim(ps[0])] + TrimEach(ps[1..])
  }

  lemma TrimEachAppend(a: seq<string>, b: seq<string>)
    ensures TrimEach(a + b) == TrimEach(a) + TrimEach(b)
  {
  }

  /** A string with no whitespace at either end is its own trim. */
  lemma TrimOfTrimmed(x: string)
    requires x == [] || (!IsWhitespace(x[0]) && !IsWhitespace(x[|x| - 1]))
    ensures Trim(x) == x
  {
  }

  lemma {:induction false} DropEmptyOfNonEmpty(ps: seq<string>)
    requires forall i :: 0 <= i < |ps| ==> ps[i] != []
    ensures DropEmpty(ps) == ps
  {
    if ps != [] {
      DropEmptyOfNonEmpty(ps[1..]);
    }
  }

  /** Dropping the empty strings works piece by piece, so the kept strings stay in input order. */
  lemma {:induction false} DropEmptyAppend(a: seq<string>, b: seq<string>)
    ensures DropEmpty(a + b) == DropEmpty(a) + DropEmpty(b)
  {
    if a != [] {
      assert (a + b)[1..] == a[1..] + b;
      DropEmptyAppend(a[1..], b);
    } else {
      assert a + b == b;
    }
  }

  lemma {:induction false} TrimEachOfTrimmed(ps: seq<string>)
    requires forall i :: 0 <= i < |ps| ==> Trim(ps[i]) == ps[i]
    ensures TrimEach(ps) == ps
  {
    if ps != [] {
      TrimEachOfTrimmed(ps[1..]);
    }
  }

  /** The trimmed, non-empty items of a comma-separated list, in order. */
  function CommaList(s: string): (r: seq<string>)
    ensures forall i :: 0 <= i < |r| ==> r[i] != [] && Trim(r[i]) == r[i] && ',' !in r[i]
  {
    var parts := Split(s, ',');
    var ts := TrimEach(parts);
    assert forall j :: 0 <= j < |ts| ==> Trim(ts[j]) == ts[j] && ',' !in ts[j] by {
      forall j | 0 <= j < |ts|
        ensures Trim(ts[j]) == ts[j] && ',' !in ts[j]
      {
        TrimIdempotent(parts[j]);
        TrimKeepsOut(parts[j], ',');
      }
    }
    DropEmpty(ts)
  }

  /** Joining trimmed, non-empty, comma-free items with "," and reading them back gives the items. */
  lemma CommaListJoin(items: seq<string>)
    requires forall i :: 0 <= i < |items| ==> items[i] != [] && Trim(items[i]) == items[i] && ',' !in items[i]
    ensures CommaList(Join(items, ",")) == items
  {
    if items == [] {
      assert Split([], ',') == [[]];
      assert TrimEach([[]]) == [Trim([])];
    } else {
      SplitJoin(items, ',');
      TrimEachOfTrimmed(items);
      DropEmptyOfNonEmpty(items);
    }
  }

  /* ---------------------------------------------------------- case maps */

  /**
   * `toLowerCase` of one character, for ASCII, Latin-1 and the Turkish
   * letters (dotted capital I becomes `i` followed by U+0307); other
   * characters are left as they are.
   */
  function LowerChar(c: char): (r: string)
    ensures |r| >= 1 && (r[0] == ' ' <==> c == ' ')
    ensures c != ' ' ==> ' ' !in r
  {
    if 'A' <= c <= 'Z' || ('\U{00C0}' <= c <= '\U{00DE}' && c != '\U{00D7}') then [(c as int + 32) as char]
    else if c == '\U{011E}' || c == '\U{015E}' then [(c as int + 1) as char]
    else if c == '\U{0130}' then ['i', '\U{0307}']
    else [c]
  }

  /** `toUpperCase` of one character, over the same letters as LowerChar (sharp s becomes "SS", dotless i becomes I). */
  function UpperChar(c: char): (r: string)
    ensures |r| >= 1
    ensures c != ' ' ==> ' ' !in r
  {
    if 'a' <= c <= 'z' || ('\U{00E0}' <= c <= '\U{00FE}' && c != '\U{00F7}') then [(c as int - 32) as char]
    else if c == '\U{00DF}' then "SS"
    else if c == '\U{00FF}' then ['\U{0178}']
    else if c == '\U{00B5}' then ['\U{039C}']
    else if c == '\U{011F}' || c == '\U{015F}' then [(c as int - 1) as char]
    else if c == '\U{0131}' then "I"
    else [c]
  }

  /** `s.toLowerCase()`: a non-space first character stays non-space, and spaces appear only where `s` has them. */
  function Lower(s: string): (r: string)
    ensures |r| >= |s|
    ensures s != [] ==> (r[0] == ' ' <==> s[0] == ' ')
    ensures ' ' !in s ==> ' ' !in r
  {
    if s == [] then [] else LowerChar(s[0]) + Lower(s[1..])
  }

  /** A character lowers to plain lower-case ASCII letters only when it is one such letter in either ASCII case. */
  lemma LowerCharToAscii(c: char)
    ensures var l := LowerChar(c);
            (forall i :: 0 <= i < |l| ==> 'a' <= l[i] <= 'z') ==> |l| == 1 && (c == l[0] || c as int == l[0] as int - 32)
  {
    var l := LowerChar(c);
    if c == '\U{0130}' {
      assert l[1] == '\U{0307}';
    } else if 'A' <= c <= 'Z' {
      assert l[0] as int == c as int + 32;
    }
  }

  lemma LowerCharOfAscii(c: char, x: char)
    requires 'a' <= x <= 'z' && (c == x || c as int == x as int - 32)
    ensures LowerChar(c) == [x]
  {
  }

  /** Lowering yields a plain lower-case ASCII word only from the same word in any mix of ASCII cases. */
  lemma {:induction false} LowerToAsciiWord(s: string, w: string)
    requires forall i :: 0 <= i < |w| ==> 'a' <= w[i] <= 'z'
    ensures Lower(s) == w <==> |s| == |w| && forall i :: 0 <= i < |s| ==> s[i] == w[i] || s[i] as int == w[i] as int - 32
  {
    if s != [] && w != [] {
      LowerToAsciiWord(s[1..], w[1..]);
      if Lower(s) == w {
        LowerCharToAscii(s[0]);
        var l := LowerChar(s[0]);
        assert l == w[..|l|];
        assert Lower(s[1..]) == w[1..];
      }
      if |s| == |w| && forall i :: 0 <= i < |s| ==> s[i] == w[i] || s[i] as int == w[i] as int - 32 {
        LowerCharOfAscii(s[0], w[0]);
        assert forall i :: 0 <= i < |s[1..]| ==> s[1..][i] == s[i + 1];
      }
    } else if s != [] {
      assert |Lower(s)| >= 1;
    } else if w != [] {
      assert Lower(s) == [];
    }
  }

  /* ----------------------------------------------------------- decimals */

  predicate IsDigit(c: char) { '0' <= c <= '9' }

  predicate AllDigits(s: string) {
    forall i :: 0 <= i < |s| ==> IsDigit(s[i])
  }

  function DigitChar(d: nat): (c: char)
    requires d < 10
    ensures IsDigit(c)
  {
    ('0' as int + d) as char
  }

  /** The number a string of decimal digits denotes. */
  function DecimalValue(s: string): nat
    requires AllDigits(s)
  {
    if s == [] then 0 else DecimalValue(s[..|s| - 1]) * 10 + (s[|s| - 1] as int - '0' as int)
  }

  /** The canonical decimal rendering of a natural number (what `String(n)` and template literals give): digits only, no leading zero. */
  function NatToDecimal(n: nat): (s: string)
    ensures |s| >= 1 && AllDigits(s)
    ensures |s| > 1 ==> s[0] != '0'
  {
    if n < 10 then [DigitChar(n)] else NatToDecimal(n / 10) + [DigitChar(n % 10)]
  }

  /** Reading a rendered number gives the number back. */
  lemma {:induction false} DecimalRoundTrip(n: nat)
    ensures DecimalValue(NatToDecimal(n)) == n
  {
    if n >= 10 {
      DecimalRoundTrip(n / 10);
      var s := NatToDecimal(n);
      assert s[..|s| - 1] == NatToDecimal(n / 10);
    }
  }

  /** Rendering is one-to-one. */
  lemma NatToDecimalInjective(a: nat, b: nat)
    requires NatToDecimal(a) == NatToDecimal(b)
    ensures a == b
  {
    DecimalRoundTrip(a);
    DecimalRoundTrip(b);
  }

  /** `String(i)` for an integer: a minus sign before negative values. */
  function IntToDecimal(i: int): string {
    if i < 0 then "-" + NatToDecimal(-i) else NatToDecimal(i)
  }

  /** The longest prefix made of decimal digits. */
  function DigitPrefix(s: string): (r: string)
    ensures |r| <= |s| && r == s[..|r|] && AllDigits(r)
    ensures |r| == |s| || !IsDigit(s[|r|])
  {
    if s != [] && IsDigit(s[0]) then [s[0]] + DigitPrefix(s[1..]) else []
  }

  /** The value of the leading run of digits of `b`, or None when `b` does not start with a digit. */
  function LeadingNumber(b: string): (r: Option<int>)
    ensures r.Some? ==> r.value >= 0
  {
    var ds := DigitPrefix(b);
    if ds == [] then None else Some(DecimalValue(ds))
  }

  /**
   * `parseInt(s, 10)`: leading whitespace is skipped, one optional sign is
   * read, then the longest run of digits; no digit at all is NaN (None).
   */
  function ParseInt(s: string): Option<int> {
    var t := TrimStart(s);
    if t != [] && t[0] == '-' then
      match LeadingNumber(t[1..])
      case Some(v) => Some(-v)
      case None => None
    else if t != [] && t[0] == '+' then LeadingNumber(t[1..])
    else LeadingNumber(t)
  }

  /** `parseInt(String(i), 10) == i` for every integer. */
  lemma ParseIntOfDecimal(i: int)
    ensures ParseInt(IntToDecimal(i)) == Some(i)
  {
    var n: nat := if i < 0 then -i else i;
    var d := NatToDecimal(n);
    DecimalRoundTrip(n);
    DigitPrefixAll(d);
    if i < 0 {
      var s := "-" + d;
      assert s[0] == '-' && !IsWhitespace(s[0]);
      assert TrimStart(s) == s;
      assert s[1..] == d;
    } else {
      assert !IsWhitespace(d[0]);
      assert TrimStart(d) == d;
    }
  }

  lemma {:induction false} DigitPrefixAll(d: string)
    requires AllDigits(d)
    ensures DigitPrefix(d) == d
  {
    if d != [] {
      DigitPrefixAll(d[1..]);
    }
  }

  /* ------------------------------------------------------------- search */

  predicate StartsWith(s: string, prefix: string) {
    |prefix| <= |s| && s[..|prefix|] == prefix
  }

  predicate EndsWith(s: string, suffix: string) {
    |suffix| <= |s| && s[|s| - |suffix|..] == suffix
  }

  /** `needle` occurs in `s` at position `i`. */
  predicate OccursAt(s: string, needle: string, i: nat) {
    i + |needle| <= |s| && s[i..i + |needle|] == needle
  }

  /** `s.includes(needle)`. */
  predicate Contains(s: string, needle: string) {
    exists i: nat | i <= |s| :: OccursAt(s, needle, i)
  }
}
