/**
 * The string operations of JavaScript that the handlers and pages use:
 * `trim`, `split` on one character, `join`, decimal formatting of an integer
 * and the ordering used to sort rows by name.
 */
module JsString {

  /** The code points ECMAScript counts as WhiteSpace or LineTerminator,
      which is what `String.prototype.trim` removes from both ends. */
  predicate IsWhiteSpace(c: char) {
    || c == '\t' || c == '\n' || c == '\U{000B}' || c == '\U{000C}' || c == '\r'
    || c == ' ' || c == '\U{00A0}' || c == '\U{1680}'
    || ('\U{2000}' <= c <= '\U{200A}')
    || c == '\U{2028}' || c == '\U{2029}' || c == '\U{202F}' || c == '\U{205F}'
    || c == '\U{3000}' || c == '\U{FEFF}'
  }

  /** Every character of `s` is white space (true of the empty string). */
  predicate Blank(s: string) {
    forall i :: 0 <= i < |s| ==> IsWhiteSpace(s[i])
  }

  /** Neither end of `s` is white space: `trim` leaves such a string alone. */
  predicate Trimmed(s: string) {
    s == [] || (!IsWhiteSpace(s[0]) && !IsWhiteSpace(s[|s| - 1]))
  }

  function TrimStart(s: string): string {
    if s != [] && IsWhiteSpace(s[0]) then TrimStart(s[1..]) else s
  }

  function TrimEnd(s: string): string {
    if s != [] && IsWhiteSpace(s[|s| - 1]) then TrimEnd(s[..|s| - 1]) else s
  }

  /** `s.trim()` */
  function Trim(s: string): string {
    TrimEnd(TrimStart(s))
  }

  lemma {:induction false} TrimStartDropsBlankPrefix(s: string)
    ensures |TrimStart(s)| <= |s|
    ensures TrimStart(s) == s[|s| - |TrimStart(s)|..]
    ensures Blank(s[..|s| - |TrimStart(s)|])
    ensures TrimStart(s) == [] || !IsWhiteSpace(TrimStart(s)[0])
    ensures Blank(s) ==> TrimStart(s) == []
  {
    if s != [] && IsWhiteSpace(s[0]) {
      TrimStartDropsBlankPrefix(s[1..]);
      var k := |s| - |TrimStart(s)|;
      assert s[1..][k - 1..] == s[k..];
      assert s[..k] == [s[0]] + s[1..][..k - 1];
    }
  }

  lemma {:induction false} TrimEndDropsBlankSuffix(s: string)
    ensures |TrimEnd(s)| <= |s|
    ensures TrimEnd(s) == s[..|TrimEnd(s)|]
    ensures Blank(s[|TrimEnd(s)|..])
    ensures TrimEnd(s) == [] || !IsWhiteSpace(TrimEnd(s)[|TrimEnd(s)| - 1])
    ensures TrimEnd(s) == [] <==> Blank(s)
  {
    if s != [] && IsWhiteSpace(s[|s| - 1]) {
      var p := s[..|s| - 1];
      TrimEndDropsBlankSuffix(p);
      var k := |TrimEnd(s)|;
      assert p[..k] == s[..k];
      assert s[k..] == p[k..] + [s[|s| - 1]];
      if Blank(s) {
        assert forall i :: 0 <= i < |p| ==> p[i] == s[i];
      }
    }
  }

  /** The trim is the middle of `s`, between a blank prefix and a blank
      suffix. */
  lemma TrimIsMiddle(s: string)
    ensures var k := |s| - |TrimStart(s)|; var t := Trim(s);
      && 0 <= k && k + |t| <= |s|
      && s[k..k + |t|] == t
      && Blank(s[..k])
      && Blank(s[k + |t|..])
  {
    var u := TrimStart(s);
    var k := |s| - |u|;
    TrimStartDropsBlankPrefix(s);
    TrimEndDropsBlankSuffix(u);
    var t := Trim(s);
    assert u[..|t|] == s[k..k + |t|];
    assert u[|t|..] == s[k + |t|..];
  }

  /** The ends of a trim are not white space. */
  lemma TrimmedTrim(s: string)
    ensures Trimmed(Trim(s))
  {
    var u := TrimStart(s);
    TrimStartDropsBlankPrefix(s);
    TrimEndDropsBlankSuffix(u);
    var t := Trim(s);
    if t != [] {
      assert t[0] == u[0];
    }
  }

  /** The trim is empty exactly when `s` is blank. */
  lemma TrimEmptyIffBlank(s: string)
    ensures Trim(s) == [] <==> Blank(s)
  {
    TrimStartDropsBlankPrefix(s);
    TrimEndDropsBlankSuffix(TrimStart(s));
    if Trim(s) == [] {
      assert TrimStart(s) == [];
      forall i | 0 <= i < |s| ensures IsWhiteSpace(s[i]) {
        assert s[..|s|][i] == s[i];
      }
    }
  }

  /** `trim` removes white space from the two ends and nothing else: the
      result is the middle of `s` between a blank prefix and a blank suffix,
      it is empty exactly when `s` is blank, and its own ends are not white. */
  lemma TrimRemovesOnlyOuterWhiteSpace(s: string)
    ensures var k := |s| - |TrimStart(s)|; var t := Trim(s);
      && 0 <= k && k + |t| <= |s|
      && s[k..k + |t|] == t
      && Blank(s[..k])
      && Blank(s[k + |t|..])
    ensures Trim(s) == [] <==> Blank(s)
    ensures Trimmed(Trim(s))
  {
    TrimIsMiddle(s);
    TrimEmptyIffBlank(s);
    TrimmedTrim(s);
  }

  /** A string without white space at its ends is its own trim. */
  lemma TrimOfTrimmed(s: string)
    requires Trimmed(s)
    ensures Trim(s) == s
  {
  }

  /** Trimming twice is trimming once. */
  lemma TrimIdempotent(s: string)
    ensures Trim(Trim(s)) == Trim(s)
  {
    TrimRemovesOnlyOuterWhiteSpace(s);
    TrimOfTrimmed(Trim(s));
  }

  /** The UTF-16 code units a character takes: two for a character outside
      the Basic Multilingual Plane (a surrogate pair), one otherwise. */
  function CodeUnits(c: char): nat {
    if c as int > 0xFFFF then 2 else 1
  }

  /** `s.length`, which counts UTF-16 code units, not characters. */
  function Utf16Length(s: string): nat {
    if s == [] then 0 else CodeUnits(s[0]) + Utf16Length(s[1..])
  }

  /** The code units of a concatenation are those of its parts. */
  lemma {:induction false} Utf16LengthAppend(a: string, b: string)
    ensures Utf16Length(a + b) == Utf16Length(a) + Utf16Length(b)
  {
    if a == [] {
      assert a + b == b;
    } else {
      assert (a + b)[0] == a[0];
      assert (a + b)[1..] == a[1..] + b;
      Utf16LengthAppend(a[1..], b);
    }
  }

  /** `s.length` lies between the number of characters and twice that, and
      equals the number of characters exactly when no character is outside
      the Basic Multilingual Plane. */
  lemma {:induction false} Utf16LengthBounds(s: string)
    ensures |s| <= Utf16Length(s) <= 2 * |s|
    ensures Utf16Length(s) == |s| <==> forall i :: 0 <= i < |s| ==> s[i] as int <= 0xFFFF
    ensures Utf16Length(s) == 2 * |s| <==> forall i :: 0 <= i < |s| ==> s[i] as int > 0xFFFF
  {
    if s != [] {
      Utf16LengthBounds(s[1..]);
      assert forall i :: 1 <= i < |s| ==> s[i] == s[1..][i - 1];
    }
  }

  /** Trimming never makes `s.length` larger. */
  lemma TrimUtf16Length(s: string)
    ensures Utf16Length(Trim(s)) <= Utf16Length(s)
  {
    TrimRemovesOnlyOuterWhiteSpace(s);
    var k := |s| - |TrimStart(s)|;
    var t := Trim(s);
    assert s == s[..k] + t + s[k + |t|..];
    Utf16LengthAppend(s[..k] + t, s[k + |t|..]);
    Utf16LengthAppend(s[..k], t);
  }

  /** `parts.join(sep)` */
  function Join(parts: seq<string>, sep: string): string {
    if |parts| == 0 then ""
    else if |parts| == 1 then parts[0]
    else parts[0] + sep + Join(parts[1..], sep)
  }

  /** `s.split(d)` for a one-character separator: never empty, `""` splits
      into `[""]`, and two separators in a row give an empty segment. */
  function Split(s: string, d: char): seq<string> {
    if s == [] then [""]
    else
      var rest := Split(s[1..], d);
      if s[0] == d then [""] + rest
      else [[s[0]] + rest[0]] + rest[1..]
  }

  /** `split` gives at least one segment, and no segment contains the
      separator. */
  lemma {:induction false} SplitSegments(s: string, d: char)
    ensures |Split(s, d)| >= 1
    ensures forall i :: 0 <= i < |Split(s, d)| ==> d !in Split(s, d)[i]
  {
    if s != [] {
      var rest := Split(s[1..], d);
      var parts := Split(s, d);
      SplitSegments(s[1..], d);
      if s[0] == d {
        assert parts == [""] + rest;
        forall i | 0 <= i < |parts| ensures d !in parts[i] {
          if i > 0 { assert parts[i] == rest[i - 1]; }
        }
      } else {
        assert parts == [[s[0]] + rest[0]] + rest[1..];
        forall i | 0 <= i < |parts| ensures d !in parts[i] {
          if i > 0 { assert parts[i] == rest[i]; }
        }
      }
    }
  }

  /** Splitting and joining back with the separator gives the string back,
      and no segment contains the separator. */
  lemma {:induction false} SplitJoin(s: string, d: char)
    ensures |Split(s, d)| >= 1
    ensures forall i :: 0 <= i < |Split(s, d)| ==> d !in Split(s, d)[i]
    ensures Join(Split(s, d), [d]) == s
  {
    SplitSegments(s, d);
    if s != [] {
      var rest := Split(s[1..], d);
      SplitJoin(s[1..], d);
      var parts := Split(s, d);
      if s[0] == d {
        assert parts == [""] + rest;
        assert parts[1..] == rest;
        if |rest| == 1 {
          assert Join(parts, [d]) == "" + [d] + rest[0];
        }
      } else {
        assert parts[0] == [s[0]] + rest[0];
        assert parts[1..] == rest[1..];
        if |rest| > 1 {
          assert Join(rest, [d]) == rest[0] + [d] + Join(rest[1..], [d]);
          assert Join(parts, [d]) == [s[0]] + rest[0] + [d] + Join(rest[1..], [d]);
        }
      }
      assert [s[0]] + s[1..] == s;
    }
  }

  lemma {:induction false} SplitAfterPlainPrefix(p: string, t: string, d: char)
    requires d !in p
    ensures Split(p + t, d) == [p + Split(t, d)[0]] + Split(t, d)[1..]
  {
    if p != [] {
      assert (p + t)[1..] == p[1..] + t;
      assert (p + t)[0] == p[0];
      SplitAfterPlainPrefix(p[1..], t, d);
      var rest := Split(p[1..] + t, d);
      assert Split(p + t, d) == [[p[0]] + rest[0]] + rest[1..];
      assert rest[0] == p[1..] + Split(t, d)[0];
      assert rest[1..] == Split(t, d)[1..];
      assert [p[0]] + (p[1..] + Split(t, d)[0]) == p + Split(t, d)[0];
    } else {
      SplitJoin(t, d);
      assert p + t == t;
      assert p + Split(t, d)[0] == Split(t, d)[0];
    }
  }

  /** Joining segments that do not contain the separator and splitting the
      result gives the segments back. */
  lemma {:induction false} JoinSplit(parts: seq<string>, d: char)
    requires |parts| >= 1
    requires forall i :: 0 <= i < |parts| ==> d !in parts[i]
    ensures Split(Join(parts, [d]), d) == parts
  {
    if |parts| == 1 {
      SplitAfterPlainPrefix(parts[0], "", d);
      assert parts[0] + "" == parts[0];
    } else {
      var tail := Join(parts[1..], [d]);
      JoinSplit(parts[1..], d);
      assert Join(parts, [d]) == parts[0] + ([d] + tail);
      SplitAfterPlainPrefix(parts[0], [d] + tail, d);
      assert ([d] + tail)[1..] == tail;
      assert Split([d] + tail, d) == [""] + parts[1..];
      assert parts[0] + "" == parts[0];
      assert [parts[0]] + parts[1..] == parts;
    }
  }

  function DigitChar(n: nat): char
    requires n < 10
  {
    (('0' as int) + n) as char
  }

  predicate IsDigit(c: char) {
    '0' <= c <= '9'
  }

  predicate AllDigits(s: string) {
    forall i :: 0 <= i < |s| ==> IsDigit(s[i])
  }

  /** The value of a string of decimal digits. */
  function DecimalValue(s: string): nat
    requires AllDigits(s)
  {
    if s == [] then 0
    else 10 * DecimalValue(s[..|s| - 1]) + ((s[|s| - 1] as int) - ('0' as int))
  }

  /** The decimal numeral of `n`, without leading zeros: `${n}`. */
  function NatToString(n: nat): string {
    if n < 10 then [DigitChar(n)] else NatToString(n / 10) + [DigitChar(n % 10)]
  }

  /** `${i}` for an integer. */
  function IntToString(i: int): string {
    if i < 0 then "-" + NatToString(-i) else NatToString(i)
  }

  /** The numeral is made of digits and reads back as the number. */
  lemma {:induction false} NatToStringRoundTrip(n: nat)
    ensures NatToString(n) != "" && AllDigits(NatToString(n))
    ensures DecimalValue(NatToString(n)) == n
  {
    if n >= 10 {
      NatToStringRoundTrip(n / 10);
      var s := NatToString(n);
      assert s[..|s| - 1] == NatToString(n / 10);
    }
  }

  /** Text order by code point: `a` is a prefix of `b` or differs from it
      first at a smaller character. */
  predicate LexLe(a: string, b: string) {
    a == [] || (b != [] && (a[0] < b[0] || (a[0] == b[0] && LexLe(a[1..], b[1..]))))
  }

  lemma {:induction false} LexLeTotal(a: string, b: string)
    ensures LexLe(a, b) || LexLe(b, a)
  {
    if a != [] && b != [] && a[0] == b[0] {
      LexLeTotal(a[1..], b[1..]);
    }
  }

  lemma {:induction false} LexLeTransitive(a: string, b: string, c: string)
    requires LexLe(a, b) && LexLe(b, c)
    ensures LexLe(a, c)
  {
    if a != [] && a[0] == b[0] && b[0] == c[0] {
      LexLeTransitive(a[1..], b[1..], c[1..]);
    }
  }
}
