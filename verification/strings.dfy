/** The JavaScript string built-ins the client scripts rely on: `trim`, the `\D`
    filter of `replace(/\D/g, '')`, `String(n)` for integers, `parseInt(s, 10)`,
    and the code-point order that stands in for `localeCompare`. */
module Strings {
  import opened Options

  /** The code points ECMAScript counts as WhiteSpace or LineTerminator, which
      `trim` strips from both ends. */
  predicate IsWhitespace(c: char) {
    || c == ' ' || c == '\t' || c == '\n' || c == '\r'
    || c == '\U{000B}' || c == '\U{000C}' || c == '\U{00A0}' || c == '\U{1680}'
    || ('\U{2000}' <= c <= '\U{200A}')
    || c == '\U{2028}' || c == '\U{2029}' || c == '\U{202F}' || c == '\U{205F}'
    || c == '\U{3000}' || c == '\U{FEFF}'
  }

  predicate Blank(s: string) {
    forall i :: 0 <= i < |s| ==> IsWhitespace(s[i])
  }

  /** `s` without its leading whitespace. */
  function TrimStart(s: string): (r: string)
    ensures |r| <= |s| && r == s[|s| - |r|..]
    ensures forall i :: 0 <= i < |s| - |r| ==> IsWhitespace(s[i])
    ensures r != [] ==> !IsWhitespace(r[0])
  {
    if s != [] && IsWhitespace(s[0]) then TrimStart(s[1..]) else s
  }

  /** `s` without its trailing whitespace. */
  function TrimEnd(s: string): (r: string)
    ensures |r| <= |s| && r == s[..|r|]
    ensures forall i :: |r| <= i < |s| ==> IsWhitespace(s[i])
    ensures r != [] ==> !IsWhitespace(r[|r| - 1])
  {
    if s != [] && IsWhitespace(s[|s| - 1]) then TrimEnd(s[..|s| - 1]) else s
  }

  /** `String.prototype.trim`. */
  function Trim(s: string): string {
    TrimEnd(TrimStart(s))
  }

  /** A trimmed text is empty exactly when every character of it was whitespace,
      which is what every `value.trim()` truthiness test in the clients decides. */
  lemma TrimEmptyIffBlank(s: string)
    ensures Trim(s) == [] <==> Blank(s)
  {
    var t := TrimStart(s);
    if t != [] {
      assert t[0] == s[|s| - |t|];
    }
  }

  /** `v || ''` for a string that may be missing: missing reads as "". */
  function Text(v: Option<string>): string {
    if v.Some? then v.value else ""
  }

  predicate IsDigit(c: char) {
    '0' <= c <= '9'
  }

  predicate AllDigits(s: string) {
    forall i :: 0 <= i < |s| ==> IsDigit(s[i])
  }

  /** `s.replace(/\D/g, '')`: the decimal digits of `s`, in order. */
  function Digits(s: string): (r: string)
    ensures |r| <= |s| && AllDigits(r)
    ensures forall c {:trigger c in r} :: c in r <==> c in s && IsDigit(c)
  {
    if s == [] then []
    else (if IsDigit(s[0]) then [s[0]] else []) + Digits(s[1..])
  }

  /** One step of `Digits`: the first character's contribution, then the rest. */
  lemma DigitsCons(s: string)
    requires s != []
    ensures Digits(s) == (if IsDigit(s[0]) then [s[0]] else []) + Digits(s[1..])
  {
  }

  /** `Digits` keeps the order: the digits of a concatenation are the digits
      of each part in turn. */
  lemma {:induction false} DigitsConcat(a: string, b: string)
    ensures Digits(a + b) == Digits(a) + Digits(b)
  {
    if a == [] {
      assert a + b == b;
    } else {
      var head := if IsDigit(a[0]) then [a[0]] else [];
      DigitsCons(a);
      DigitsCons(a + b);
      assert (a + b)[0] == a[0] && (a + b)[1..] == a[1..] + b;
      DigitsConcat(a[1..], b);
      assert head + (Digits(a[1..]) + Digits(b)) == (head + Digits(a[1..])) + Digits(b);
    }
  }

  /** One character yields itself exactly when it is a digit; with
      `DigitsConcat` this fixes `Digits` on every text, order and repeats
      included. */
  lemma DigitsOfChar(c: char)
    ensures Digits([c]) == if IsDigit(c) then [c] else []
  {
    assert [c][1..] == [];
  }

  /** The first character `Digits` keeps is the first digit of `s`. */
  lemma {:induction false} DigitsHead(s: string)
    requires Digits(s) != []
    ensures exists i :: 0 <= i < |s| && s[i] == Digits(s)[0] && forall j :: 0 <= j < i ==> !IsDigit(s[j])
  {
    if !IsDigit(s[0]) {
      assert Digits(s) == Digits(s[1..]);
      DigitsHead(s[1..]);
      var i :| 0 <= i < |s[1..]| && s[1..][i] == Digits(s[1..])[0] && forall j :: 0 <= j < i ==> !IsDigit(s[1..][j]);
      assert s[i + 1] == Digits(s)[0];
      assert forall j :: 0 <= j < i + 1 ==> !IsDigit(s[j]) by {
        forall j | 0 <= j < i + 1 ensures !IsDigit(s[j]) {
          if j > 0 { assert s[j] == s[1..][j - 1]; }
        }
      }
    } else {
      assert Digits(s)[0] == s[0];
    }
  }

  /** The longest prefix of `s` made of decimal digits. */
  function DigitPrefix(s: string): (r: string)
    ensures |r| <= |s| && r == s[..|r|] && AllDigits(r)
    ensures |r| < |s| ==> !IsDigit(s[|r|])
  {
    if s != [] && IsDigit(s[0]) then [s[0]] + DigitPrefix(s[1..]) else []
  }

  lemma {:induction false} DigitPrefixStops(s: string, t: string)
    requires AllDigits(s)
    requires t == [] || !IsDigit(t[0])
    ensures DigitPrefix(s + t) == s
  {
    if s != [] {
      assert (s + t)[1..] == s[1..] + t;
      DigitPrefixStops(s[1..], t);
    } else {
      assert s + t == t;
    }
  }

  function DigitChar(d: nat): (c: char)
    requires d < 10
    ensures IsDigit(c)
  {
    ('0' as int + d) as char
  }

  function DigitValue(c: char): (d: nat)
    requires IsDigit(c)
    ensures d < 10 && DigitChar(d) == c
  {
    c as int - '0' as int
  }

  /** `String(n)` for a non-negative integer: its decimal digits, most significant
      first, without leading zeros. */
  function NatToString(n: nat): (r: string)
    ensures |r| >= 1 && AllDigits(r)
    ensures r[0] == '0' ==> n == 0
  {
    if n < 10 then [DigitChar(n)] else NatToString(n / 10) + [DigitChar(n % 10)]
  }

  /** The value of a string of decimal digits. */
  function ParseDigits(s: string): nat
    requires AllDigits(s)
  {
    if s == [] then 0 else ParseDigits(s[..|s| - 1]) * 10 + DigitValue(s[|s| - 1])
  }

  /** Reading back the decimal rendering of `n` gives `n`. */
  lemma {:induction false} ParseDigitsOfNatToString(n: nat)
    ensures ParseDigits(NatToString(n)) == n
  {
    if n >= 10 {
      var s := NatToString(n);
      assert s[..|s| - 1] == NatToString(n / 10);
      ParseDigitsOfNatToString(n / 10);
    }
  }

  /** `String(i)` for an integer. */
  function IntToString(i: int): (r: string)
    ensures r != [] && (r[0] == '-' || IsDigit(r[0]))
  {
    if i < 0 then "-" + NatToString(-i) else NatToString(i)
  }

  /** `parseInt(s, 10)`: leading whitespace, an optional sign, then the longest
      run of decimal digits; `None` stands for `NaN` (no digit where one is due). */
  function ParseInt(s: string): (r: Option<int>)
    ensures r.None? <==> DigitPrefix(Unsigned(TrimStart(s))) == []
  {
    var t := TrimStart(s);
    var ds := DigitPrefix(Unsigned(t));
    if ds == [] then None
    else
      var v: int := ParseDigits(ds);
      Some(if t[0] == '-' then -v else v)
  }

  /** `t` without one leading sign character. */
  function Unsigned(t: string): (r: string)
    ensures r == t || (t != [] && (t[0] == '-' || t[0] == '+') && r == t[1..])
  {
    if t != [] && (t[0] == '-' || t[0] == '+') then t[1..] else t
  }

  /** What a page writes with `String(id)` it reads back with `parseInt(…, 10)`. */
  lemma ParseIntOfIntToString(i: int)
    ensures ParseInt(IntToString(i)) == Some(i)
  {
    var s := IntToString(i);
    assert !IsWhitespace(s[0]);
    assert TrimStart(s) == s;
    var n: nat := if i < 0 then -i else i;
    assert Unsigned(s) == NatToString(n) + [];
    DigitPrefixStops(NatToString(n), []);
    ParseDigitsOfNatToString(n);
  }

  /** Code-point lexicographic order on strings (`a` sorts no later than `b`). */
  predicate LexLe(a: string, b: string) {
    a == [] || (b != [] && (a[0] < b[0] || (a[0] == b[0] && LexLe(a[1..], b[1..]))))
  }

  lemma {:induction false} LexLeTotal(a: string, b: string)
    ensures LexLe(a, b) || LexLe(b, a)
  {
    if a != [] && b != [] && a[0] == b[0] {
      LexLeTotal(a[1..], b[1..]);
    }
  }

  lemma {:induction false} LexLeTransitive(a: string, b: string, c: string)
    requires LexLe(a, b) && LexLe(b, c)
    ensures LexLe(a, c)
  {
    if a != [] && b != [] && c != [] && a[0] == b[0] && b[0] == c[0] {
      LexLeTransitive(a[1..], b[1..], c[1..]);
    }
  }

  lemma {:induction false} LexLeAntisymmetric(a: string, b: string)
    requires LexLe(a, b) && LexLe(b, a)
    ensures a == b
  {
    if a != [] && b != [] {
      LexLeAntisymmetric(a[1..], b[1..]);
      assert a == [a[0]] + a[1..] && b == [b[0]] + b[1..];
    }
  }
}
