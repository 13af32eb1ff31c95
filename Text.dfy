/** String operations of the JavaScript runtime that the core relies on:
    prefix tests, `split` and `join` on one character, the decimal rendering
    of integers and the global `parseInt` with no radix argument. */
module Text {
  import opened Values

  /** `s.startsWith(prefix)` */
  predicate StartsWith(s: string, prefix: string) {
    |prefix| <= |s| && s[..|prefix|] == prefix
  }

  /** `s.includes(sub)` */
  predicate Contains(s: string, sub: string)
    decreases |s|
  {
    StartsWith(s, sub) || (|s| > 0 && Contains(s[1..], sub))
  }

  /** `s.split(sep)` for a one-character separator: empty segments are kept,
      so there is always at least one segment. */
  function Split(s: string, sep: char): (r: seq<string>)
    ensures |r| >= 1
    ensures forall k :: 0 <= k < |r| ==> sep !in r[k]
  {
    if |s| == 0 then [""]
    else
      var rest := Split(s[1..], sep);
      if s[0] == sep then [""] + rest
      else [[s[0]] + rest[0]] + rest[1..]
  }

  /** `parts.join(sep)` */
  function Join(parts: seq<string>, sep: char): string
    requires |parts| >= 1
  {
    if |parts| == 1 then parts[0] else parts[0] + [sep] + Join(parts[1..], sep)
  }

  /** Joining the segments of a split gives back the original string. */
  lemma {:induction false} JoinSplit(s: string, sep: char)
    ensures Join(Split(s, sep), sep) == s
  {
    if |s| > 0 {
      var rest := Split(s[1..], sep);
      JoinSplit(s[1..], sep);
      if s[0] == sep {
        assert Split(s, sep) == [""] + rest;
        assert Join([""] + rest, sep) == "" + [sep] + Join(rest, sep) by {
          assert ([""] + rest)[1..] == rest;
        }
        assert s == [s[0]] + s[1..];
      } else {
        var first := [s[0]] + rest[0];
        assert Split(s, sep) == [first] + rest[1..];
        if |rest| == 1 {
          assert Join([first] + rest[1..], sep) == first;
          assert s == [s[0]] + s[1..];
        } else {
          assert Join(rest, sep) == rest[0] + [sep] + Join(rest[1..], sep);
          assert Join([first] + rest[1..], sep) == first + [sep] + Join(rest[1..], sep) by {
            assert ([first] + rest[1..])[1..] == rest[1..];
          }
          assert s == [s[0]] + s[1..];
        }
      }
    }
  }

  /** Splitting a join of separator-free segments gives back the segments. */
  lemma {:induction false} SplitJoin(parts: seq<string>, sep: char)
    requires |parts| >= 1
    requires forall k :: 0 <= k < |parts| ==> sep !in parts[k]
    ensures Split(Join(parts, sep), sep) == parts
  {
    if |parts| == 1 {
      SplitFree(parts[0], sep);
    } else {
      SplitJoin(parts[1..], sep);
      SplitPrefix(parts[0], sep, Join(parts[1..], sep));
      assert parts == [parts[0]] + parts[1..];
    }
  }

  /** A string without the separator splits into itself. */
  lemma {:induction false} SplitFree(s: string, sep: char)
    requires sep !in s
    ensures Split(s, sep) == [s]
  {
    if |s| > 0 {
      SplitFree(s[1..], sep);
      assert [s[0]] + s[1..] == s;
    }
  }

  /** Splitting `a + sep + b` for separator-free `a` puts `a` in front of the split of `b`. */
  lemma {:induction false} SplitPrefix(a: string, sep: char, b: string)
    requires sep !in a
    ensures Split(a + [sep] + b, sep) == [a] + Split(b, sep)
  {
    if |a| == 0 {
      assert a + [sep] + b == [sep] + b;
      assert ([sep] + b)[1..] == b;
    } else {
      SplitPrefix(a[1..], sep, b);
      var s := a + [sep] + b;
      assert s[0] == a[0];
      assert s[1..] == a[1..] + [sep] + b;
      assert [a[0]] + a[1..] == a;
    }
  }

  function DigitChar(d: nat): (c: char)
    requires d < 10
    ensures '0' <= c <= '9'
  {
    (('0' as int) + d) as char
  }

  /** `String(n)` for a non-negative integer: its decimal digits, most significant first. */
  function Decimal(n: nat): (r: string)
    ensures |r| >= 1
    ensures forall i :: 0 <= i < |r| ==> '0' <= r[i] <= '9'
    decreases n
  {
    if n < 10 then [DigitChar(n)] else Decimal(n / 10) + [DigitChar(n % 10)]
  }

  /** `String(i)` for an integer (below 10^21 in magnitude, where JavaScript
      would switch to exponent notation). */
  function IntToString(i: int): string {
    if i < 0 then "-" + Decimal(-i) else Decimal(i)
  }

  /** `String(v)`: the text a value converts to when a string or a number is expected. */
  function JsString(v: Value): string
    decreases v
  {
    match v
    case Null => "null"
    case Bool(b) => if b then "true" else "false"
    case Num(n) => IntToString(n)
    case Str(s) => s
    case List(items) =>
      JoinWithCommas(seq(|items|, i requires 0 <= i < |items| =>
        if items[i].Null? then "" else JsString(items[i])))
    case Obj(_) => "[object Object]"
  }

  /** `Array.prototype.join(",")` on already converted elements. */
  function JoinWithCommas(parts: seq<string>): string {
    if |parts| == 0 then "" else if |parts| == 1 then parts[0]
    else parts[0] + "," + JoinWithCommas(parts[1..])
  }

  /** The white space that `parseInt` skips, restricted to ASCII: tab, line
      feed, vertical tab, form feed, carriage return and space. */
  predicate IsJsSpace(c: char) {
    c == ' ' || ('\t' <= c <= '\r')
  }

  function TrimStart(s: string): (r: string)
    ensures |r| <= |s| && r == s[|s| - |r|..]
  {
    if |s| > 0 && IsJsSpace(s[0]) then TrimStart(s[1..]) else s
  }

  /** The value of a digit character in radices up to 36. */
  function DigitOf(c: char): Option<nat> {
    if '0' <= c <= '9' then Some(c as int - '0' as int)
    else if 'a' <= c <= 'z' then Some(c as int - 'a' as int + 10)
    else if 'A' <= c <= 'Z' then Some(c as int - 'A' as int + 10)
    else None
  }

  predicate IsDigitIn(c: char, radix: nat) {
    DigitOf(c).Some? && DigitOf(c).value < radix
  }

  /** The longest prefix of `s` made of digits of the radix. */
  function DigitPrefix(s: string, radix: nat): (r: string)
    ensures |r| <= |s| && r == s[..|r|]
    ensures forall i :: 0 <= i < |r| ==> IsDigitIn(r[i], radix)
    ensures |r| < |s| ==> !IsDigitIn(s[|r|], radix)
  {
    if |s| > 0 && IsDigitIn(s[0], radix) then [s[0]] + DigitPrefix(s[1..], radix) else []
  }

  function DigitsValue(ds: string, radix: nat): nat
    requires forall i :: 0 <= i < |ds| ==> IsDigitIn(ds[i], radix)
  {
    if |ds| == 0 then 0
    else
      assert IsDigitIn(ds[|ds| - 1], radix);
      var high := DigitsValue(ds[..|ds| - 1], radix);
      ProductNat(high, radix);
      high * radix + DigitOf(ds[|ds| - 1]).value
  }

  lemma ProductNat(a: nat, b: nat)
    ensures a * b >= 0
  {
  }

  /** The global `parseInt(s)` with no radix: leading white space is skipped,
      one sign is read, a `0x`/`0X` prefix selects radix 16, and the longest
      run of digits that follows is the value; with no digit the result is NaN
      (`None`). Characters after the digits are ignored. */
  function ParseInt(s: string): (r: Option<int>)
    ensures |s| == 0 ==> r == None
  {
    var t := TrimStart(s);
    if |t| > 0 && t[0] == '-' then
      match ParseUnsigned(t[1..])
      case None => None
      case Some(m) => Some(-m)
    else if |t| > 0 && t[0] == '+' then ParseUnsigned(t[1..])
    else ParseUnsigned(t)
  }

  /** The magnitude read by `parseInt` once white space and sign are gone. */
  function ParseUnsigned(u: string): Option<int> {
    if |u| >= 2 && u[0] == '0' && (u[1] == 'x' || u[1] == 'X') then FromDigits(DigitPrefix(u[2..], 16), 16)
    else FromDigits(DigitPrefix(u, 10), 10)
  }

  function FromDigits(digits: string, radix: nat): Option<int>
    requires forall i :: 0 <= i < |digits| ==> IsDigitIn(digits[i], radix)
  {
    if |digits| == 0 then None else Some(DigitsValue(digits, radix))
  }

  lemma {:induction false} DecimalLead(n: nat)
    requires n >= 1
    ensures Decimal(n)[0] != '0'
  {
    if n >= 10 {
      DecimalLead(n / 10);
    }
  }

  lemma {:induction false} DecimalValue(n: nat)
    ensures forall i :: 0 <= i < |Decimal(n)| ==> IsDigitIn(Decimal(n)[i], 10)
    ensures DigitsValue(Decimal(n), 10) == n
  {
    if n >= 10 {
      DecimalValue(n / 10);
      var d := Decimal(n);
      assert d[..|d| - 1] == Decimal(n / 10);
    }
  }

  lemma {:induction false} DigitPrefixAll(s: string, radix: nat)
    requires forall i :: 0 <= i < |s| ==> IsDigitIn(s[i], radix)
    ensures DigitPrefix(s, radix) == s
  {
    if |s| > 0 {
      DigitPrefixAll(s[1..], radix);
      assert [s[0]] + s[1..] == s;
    }
  }

  /** The digits `String` writes for a natural number read back as that number. */
  lemma ParseUnsignedDecimal(n: nat)
    ensures ParseUnsigned(Decimal(n)) == Some(n)
  {
    var d := Decimal(n);
    DecimalValue(n);
    DigitPrefixAll(d, 10);
    if n >= 10 { DecimalLead(n); }
  }

  /** `parseInt` reads back what `String` writes for a non-negative integer. */
  lemma ParseIntDecimal(n: nat)
    ensures ParseInt(Decimal(n)) == Some(n)
  {
    var d := Decimal(n);
    assert !IsJsSpace(d[0]) && d[0] != '-' && d[0] != '+';
    assert TrimStart(d) == d;
    ParseUnsignedDecimal(n);
  }

  /** `parseInt(String(i)) == i` for every integer, which is why `parseInt` of
      a number is the number itself. */
  lemma ParseIntToString(i: int)
    ensures ParseInt(IntToString(i)) == Some(i)
  {
    if i < 0 {
      var d := Decimal(-i);
      var s := "-" + d;
      assert s[0] == '-' && !IsJsSpace(s[0]);
      assert TrimStart(s) == s;
      assert s[1..] == d;
      ParseUnsignedDecimal(-i);
    } else {
      ParseIntDecimal(i);
    }
  }

  function TrimEnd(s: string): (r: string)
    ensures |r| <= |s|
  {
    if |s| > 0 && IsJsSpace(s[|s| - 1]) then TrimEnd(s[..|s| - 1]) else s
  }

  /** The value of `s` when every character is a digit of the radix and there is one at least. */
  function WholeDigits(s: string, radix: nat): Option<int> {
    if |s| > 0 && forall i :: 0 <= i < |s| ==> IsDigitIn(s[i], radix) then Some(DigitsValue(s, radix)) else None
  }

  /** `Number(s)` on the integer forms of a numeric string: surrounding white
      space is ignored, the empty string is 0, an optional sign followed by
      decimal digits or a `0x`/`0X` prefix followed by hexadecimal digits is
      that integer, and anything else is NaN (`None`). */
  function StringToNumber(s: string): (r: Option<int>)
    ensures |s| == 0 ==> r == Some(0)
  {
    NumericLiteral(TrimEnd(TrimStart(s)))
  }

  /** The integer literal a trimmed string spells, if any. */
  function NumericLiteral(t: string): Option<int> {
    if |t| == 0 then Some(0)
    else if |t| >= 3 && t[0] == '0' && (t[1] == 'x' || t[1] == 'X') then WholeDigits(t[2..], 16)
    else if t[0] == '-' then
      match WholeDigits(t[1..], 10)
      case None => None
      case Some(m) => Some(-m)
    else if t[0] == '+' then WholeDigits(t[1..], 10)
    else WholeDigits(t, 10)
  }

  lemma WholeDigitsDecimal(n: nat)
    ensures WholeDigits(Decimal(n), 10) == Some(n)
  {
    DecimalValue(n);
  }

  /** A string that starts and ends with a non-space character is its own trim. */
  lemma TrimNone(s: string)
    requires |s| > 0 && !IsJsSpace(s[0]) && !IsJsSpace(s[|s| - 1])
    ensures TrimEnd(TrimStart(s)) == s
  {
  }

  lemma NumberOfDecimal(n: nat)
    ensures StringToNumber(Decimal(n)) == Some(n)
  {
    var d := Decimal(n);
    assert '0' <= d[0] <= '9' && '0' <= d[|d| - 1] <= '9';
    TrimNone(d);
    if n >= 10 {
      DecimalLead(n);
    } else {
      assert |d| == 1;
    }
    assert !(|d| >= 3 && d[0] == '0') && d[0] != '-' && d[0] != '+';
    WholeDigitsDecimal(n);
    assert NumericLiteral(d) == WholeDigits(d, 10);
  }

  /** A minus sign followed by decimal digits reads as the negated digits. */
  lemma NegativeLiteral(s: string)
    requires |s| >= 2 && s[0] == '-' && !IsJsSpace(s[|s| - 1])
    ensures StringToNumber(s) == if WholeDigits(s[1..], 10).Some? then Some(-WholeDigits(s[1..], 10).value) else None
  {
    TrimNone(s);
    SignedLiteral(s);
  }

  /** Once trimmed, a leading minus sign negates the decimal digits after it. */
  lemma SignedLiteral(t: string)
    requires |t| >= 2 && t[0] == '-'
    ensures NumericLiteral(t) == if WholeDigits(t[1..], 10).Some? then Some(-WholeDigits(t[1..], 10).value) else None
  {
  }

  lemma NegatedDigits(d: string, m: int)
    requires |d| > 0 && !IsJsSpace(d[|d| - 1]) && WholeDigits(d, 10) == Some(m)
    ensures StringToNumber("-" + d) == Some(-m)
  {
    var s := "-" + d;
    assert s[|s| - 1] == d[|d| - 1] && s[1..] == d;
    NegativeLiteral(s);
    assert WholeDigits(s[1..], 10) == Some(m);
  }

  /** `Number` reads back what `String` writes for every integer. */
  lemma NumberOfString(i: int)
    ensures StringToNumber(IntToString(i)) == Some(i)
  {
    if i < 0 {
      var d := Decimal(-i);
      WholeDigitsDecimal(-i);
      assert '0' <= d[|d| - 1] <= '9';
      NegatedDigits(d, -i);
    } else {
      NumberOfDecimal(i);
    }
  }
}
