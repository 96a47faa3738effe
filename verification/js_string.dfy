/** The ECMAScript string built-ins the scraper relies on: `trim`, `split`
    with a one-character separator, and `parseInt(s, 10)` (section 19.2.5 of
    ECMA-262). Strings are sequences of code points. */
module JsString {

  /** The code points ECMA-262 calls WhiteSpace (section 12.2) or
      LineTerminator (section 12.3): what `trim` strips from both ends and
      what `parseInt` skips before the number. */
  predicate IsWhiteSpace(c: char)
  {
    || ('\t' <= c <= '\r') || c == ' ' || c == '\U{00A0}' || c == '\U{1680}'
    || ('\U{2000}' <= c <= '\U{200A}') || c == '\U{2028}' || c == '\U{2029}'
    || c == '\U{202F}' || c == '\U{205F}' || c == '\U{3000}' || c == '\U{FEFF}'
  }

  predicate AllWhiteSpace(s: string)
  {
    forall i :: 0 <= i < |s| ==> IsWhiteSpace(s[i])
  }

  /** Neither end of s is white space. */
  predicate IsTrimmed(s: string)
  {
    |s| == 0 || (!IsWhiteSpace(s[0]) && !IsWhiteSpace(s[|s| - 1]))
  }

  /** s without its leading white space. */
  function TrimStart(s: string): (r: string)
    ensures |r| <= |s| && r == s[|s| - |r|..]
    ensures forall i :: 0 <= i < |s| - |r| ==> IsWhiteSpace(s[i])
    ensures |r| == 0 || !IsWhiteSpace(r[0])
    decreases |s|
  {
    if |s| > 0 && IsWhiteSpace(s[0]) then TrimStart(s[1..]) else s
  }

  /** s without its trailing white space. */
  function TrimEnd(s: string): (r: string)
    ensures |r| <= |s| && r == s[..|r|]
    ensures forall i :: |r| <= i < |s| ==> IsWhiteSpace(s[i])
    ensures |r| == 0 || !IsWhiteSpace(r[|r| - 1])
    decreases |s|
  {
    if |s| > 0 && IsWhiteSpace(s[|s| - 1]) then TrimEnd(s[..|s| - 1]) else s
  }

  /** `String.prototype.trim`: s is white space, then the result, then
      white space, and the result has no white space at either end. */
  function Trim(s: string): (r: string)
    ensures IsTrimmed(r)
    ensures exists lead, trail ::
      AllWhiteSpace(lead) && AllWhiteSpace(trail) && s == lead + r + trail
  {
    var t := TrimStart(s);
    var r := TrimEnd(t);
    TrimParts(s, t, r);
    r
  }

  /** The pieces `trim` cuts off: the white space before and after the
      result. */
  lemma TrimParts(s: string, t: string, r: string)
    requires t == TrimStart(s) && r == TrimEnd(t)
    ensures IsTrimmed(r)
    ensures var lead, trail := s[..|s| - |t|], t[|r|..];
      AllWhiteSpace(lead) && AllWhiteSpace(trail) && s == lead + r + trail
  {
    SplitAtSuffix(s, t);
    SplitAtPrefix(t, r);
    WhiteSpaceBefore(s, |s| - |t|);
    WhiteSpaceAfter(t, |r|);
    Associate(s[..|s| - |t|], r, t[|r|..]);
    if |r| > 0 {
      assert r[0] == t[0];
    }
  }

  lemma Associate(a: string, b: string, c: string)
    ensures a + (b + c) == a + b + c
  {
  }

  lemma SplitAtSuffix(s: string, t: string)
    requires |t| <= |s| && t == s[|s| - |t|..]
    ensures s == s[..|s| - |t|] + t
  {
  }

  lemma SplitAtPrefix(t: string, r: string)
    requires |r| <= |t| && r == t[..|r|]
    ensures t == r + t[|r|..]
  {
  }

  lemma WhiteSpaceBefore(s: string, n: nat)
    requires n <= |s|
    requires forall i :: 0 <= i < n ==> IsWhiteSpace(s[i])
    ensures AllWhiteSpace(s[..n])
  {
  }

  lemma WhiteSpaceAfter(s: string, n: nat)
    requires n <= |s|
    requires forall i :: n <= i < |s| ==> IsWhiteSpace(s[i])
    ensures AllWhiteSpace(s[n..])
  {
    forall i | 0 <= i < |s| - n
      ensures IsWhiteSpace(s[n..][i])
    {
      assert s[n..][i] == s[n + i];
    }
  }

  lemma {:induction false} TrimStartSkips(lead: string, rest: string)
    requires AllWhiteSpace(lead)
    requires |rest| == 0 || !IsWhiteSpace(rest[0])
    ensures TrimStart(lead + rest) == rest
    decreases |lead|
  {
    if |lead| == 0 {
      assert lead + rest == rest;
    } else {
      assert (lead + rest)[1..] == lead[1..] + rest;
      TrimStartSkips(lead[1..], rest);
    }
  }

  lemma {:induction false} TrimEndSkips(rest: string, trail: string)
    requires AllWhiteSpace(trail)
    requires |rest| == 0 || !IsWhiteSpace(rest[|rest| - 1])
    ensures TrimEnd(rest + trail) == rest
    decreases |trail|
  {
    if |trail| == 0 {
      assert rest + trail == rest;
    } else {
      var shorter := trail[..|trail| - 1];
      assert (rest + trail)[..|rest + trail| - 1] == rest + shorter;
      TrimEndSkips(rest, shorter);
    }
  }

  /** Any way of writing s as white space, a trimmed middle and white space
      determines `Trim(s)`: the middle is exactly what `trim` returns. */
  lemma TrimUnique(lead: string, middle: string, trail: string)
    requires AllWhiteSpace(lead) && AllWhiteSpace(trail)
    requires IsTrimmed(middle)
    ensures Trim(lead + middle + trail) == middle
  {
    if |middle| == 0 {
      assert lead + middle + trail == (lead + trail) + [];
      TrimStartSkips(lead + trail, []);
      TrimEndSkips([], []);
    } else {
      assert lead + middle + trail == lead + (middle + trail);
      TrimStartSkips(lead, middle + trail);
      TrimEndSkips(middle, trail);
    }
  }

  lemma TrimIdempotent(s: string)
    ensures Trim(Trim(s)) == Trim(s)
  {
    TrimUnique([], Trim(s), []);
    assert [] + Trim(s) + [] == Trim(s);
  }

  /** Number of occurrences of c in s. */
  function Count(s: string, c: char): nat
    decreases |s|
  {
    if |s| == 0 then 0 else (if s[0] == c then 1 else 0) + Count(s[1..], c)
  }

  lemma {:induction false} CountZero(s: string, c: char)
    ensures Count(s, c) == 0 <==> c !in s
    decreases |s|
  {
    if |s| > 0 {
      CountZero(s[1..], c);
      assert s == [s[0]] + s[1..];
    }
  }

  lemma {:induction false} CountAppend(a: string, b: string, c: char)
    ensures Count(a + b, c) == Count(a, c) + Count(b, c)
    decreases |a|
  {
    if |a| == 0 {
      assert a + b == b;
    } else {
      assert (a + b)[1..] == a[1..] + b;
      CountAppend(a[1..], b, c);
    }
  }

  /** `s.split(sep)` for a one-character separator and no limit: the pieces
      of s between consecutive separators, so always one piece more than
      there are separators, and no piece holds the separator. */
  function Split(s: string, sep: char): (parts: seq<string>)
    ensures |parts| == Count(s, sep) + 1
    ensures forall i :: 0 <= i < |parts| ==> sep !in parts[i]
    decreases |s|
  {
    if |s| == 0 then [[]]
    else
      var rest := Split(s[1..], sep);
      if s[0] == sep then [[]] + rest
      else [[s[0]] + rest[0]] + rest[1..]
  }

  /** `parts.join(sep)`: the inverse of `Split`. */
  function Join(parts: seq<string>, sep: char): string
    decreases |parts|
  {
    if |parts| == 0 then []
    else if |parts| == 1 then parts[0]
    else parts[0] + [sep] + Join(parts[1..], sep)
  }

  /** Joining the pieces of a split with the separator gives back the string. */
  lemma {:induction false} SplitJoin(s: string, sep: char)
    ensures Join(Split(s, sep), sep) == s
    decreases |s|
  {
    if |s| > 0 {
      var rest := Split(s[1..], sep);
      SplitJoin(s[1..], sep);
      if s[0] == sep {
        assert ([[]] + rest)[1..] == rest;
      } else {
        var parts := [[s[0]] + rest[0]] + rest[1..];
        assert parts[1..] == rest[1..];
        if |rest| > 1 {
          assert Join(rest, sep) == rest[0] + [sep] + Join(rest[1..], sep);
        }
      }
    }
  }

  /** A separator-free prefix is glued onto the first piece of the split. */
  lemma {:induction false} SplitFreePrefix(p: string, t: string, sep: char)
    requires sep !in p
    ensures Split(p + t, sep) == [p + Split(t, sep)[0]] + Split(t, sep)[1..]
    decreases |p|
  {
    if |p| == 0 {
      var parts := Split(t, sep);
      assert p + t == t;
      assert p + parts[0] == parts[0];
      assert parts == [parts[0]] + parts[1..];
    } else {
      assert (p + t)[1..] == p[1..] + t;
      SplitFreePrefix(p[1..], t, sep);
      assert [p[0]] + (p[1..] + Split(t, sep)[0]) == p + Split(t, sep)[0];
    }
  }

  /** Splitting a join of separator-free pieces gives back the pieces. */
  lemma {:induction false} JoinSplit(parts: seq<string>, sep: char)
    requires |parts| >= 1
    requires forall i :: 0 <= i < |parts| ==> sep !in parts[i]
    ensures Split(Join(parts, sep), sep) == parts
    decreases |parts|
  {
    if |parts| == 1 {
      SplitFreePrefix(parts[0], [], sep);
      assert parts[0] + [] == parts[0];
    } else {
      var tail := Join(parts[1..], sep);
      JoinSplit(parts[1..], sep);
      assert ([sep] + tail)[1..] == tail;
      assert Split([sep] + tail, sep) == [[]] + parts[1..];
      assert parts[0] + [sep] + tail == parts[0] + ([sep] + tail);
      SplitFreePrefix(parts[0], [sep] + tail, sep);
      var pieces := Split([sep] + tail, sep);
      assert pieces[0] == [] && pieces[1..] == parts[1..];
      assert parts[0] + [] == parts[0];
      assert parts == [parts[0]] + parts[1..];
    }
  }

  /** With exactly one separator, at index i, the split is the text before
      and the text after it. */
  lemma SplitAtOnlySeparator(t: string, i: int, sep: char)
    requires 0 <= i < |t| && t[i] == sep
    requires Count(t, sep) == 1
    ensures Split(t, sep) == [t[..i], t[i + 1..]]
  {
    var before, after := t[..i], t[i + 1..];
    assert t == before + ([sep] + after);
    CountAppend(before, [sep] + after, sep);
    CountAppend([sep], after, sep);
    CountZero(before, sep);
    CountZero(after, sep);
    assert Join([before, after], sep) == before + [sep] + Join([after], sep);
    assert t == Join([before, after], sep);
    JoinSplit([before, after], sep);
  }

  predicate IsDigit(c: char)
  {
    '0' <= c <= '9'
  }

  predicate AllDigits(s: string)
  {
    forall i :: 0 <= i < |s| ==> IsDigit(s[i])
  }

  /** The decimal value of a digit string, most significant digit first. */
  function DigitsValue(s: string): nat
    requires AllDigits(s)
    decreases |s|
  {
    if |s| == 0 then 0
    else 10 * DigitsValue(s[..|s| - 1]) + (s[|s| - 1] as int - '0' as int)
  }

  /** The longest prefix of s made of decimal digits. */
  function LeadingDigits(s: string): (z: string)
    ensures |z| <= |s| && z == s[..|z|]
    ensures AllDigits(z)
    ensures |z| == |s| || !IsDigit(s[|z|])
    decreases |s|
  {
    if |s| > 0 && IsDigit(s[0]) then [s[0]] + LeadingDigits(s[1..]) else []
  }

  /** A JavaScript number as `parseInt` can produce it: NaN, or an integer. */
  datatype NumberValue = NaN | Num(value: int)

  /** `parseInt(s, 10)`: skip leading white space, take an optional sign,
      then the longest run of decimal digits; no digits gives NaN. */
  function ParseInt(s: string): (r: NumberValue)
    ensures var t := TrimStart(s);
      var unsigned := if |t| > 0 && (t[0] == '-' || t[0] == '+') then t[1..] else t;
      && (r.NaN? <==> |unsigned| == 0 || !IsDigit(unsigned[0]))
      && (r.Num? && r.value < 0 ==> t[0] == '-')
  {
    ParseSigned(TrimStart(s))
  }

  /** The steps of `parseInt` after the white space is gone: a leading `-`
      negates, a leading `+` is dropped. */
  function ParseSigned(t: string): NumberValue
  {
    if |t| > 0 && t[0] == '-' then Negate(ParseDigits(t[1..]))
    else if |t| > 0 && t[0] == '+' then ParseDigits(t[1..])
    else ParseDigits(t)
  }

  /** The value of the leading run of digits of u, or NaN if there is none. */
  function ParseDigits(u: string): NumberValue
  {
    var z := LeadingDigits(u);
    if |z| == 0 then NaN else Num(DigitsValue(z))
  }

  function Negate(v: NumberValue): NumberValue
  {
    match v
    case NaN => NaN
    case Num(n) => Num(-n)
  }

  lemma {:induction false} LeadingDigitsOf(digits: string, rest: string)
    requires AllDigits(digits)
    requires |rest| == 0 || !IsDigit(rest[0])
    ensures LeadingDigits(digits + rest) == digits
    decreases |digits|
  {
    if |digits| == 0 {
      assert digits + rest == rest;
    } else {
      assert (digits + rest)[1..] == digits[1..] + rest;
      LeadingDigitsOf(digits[1..], rest);
      assert [digits[0]] + digits[1..] == digits;
    }
  }

  /** White space, an optional sign, a run of digits and anything that does
      not continue the run: `parseInt` reads the signed value of the run. */
  lemma ParseIntDigits(lead: string, sign: string, digits: string, rest: string)
    requires AllWhiteSpace(lead)
    requires sign == "" || sign == "+" || sign == "-"
    requires |digits| > 0 && AllDigits(digits)
    requires |rest| == 0 || !IsDigit(rest[0])
    ensures ParseInt(lead + sign + digits + rest)
         == (if sign == "-" then Negate(Num(DigitsValue(digits))) else Num(DigitsValue(digits)))
  {
    Regroup(lead, sign, digits, rest);
    NotSpaceOrSign(digits[0]);
    ParseDigitsOf(digits, rest);
    ParseSignedOf(sign, digits + rest);
    if sign != "" {
      NotSpaceOrSign(sign[0]);
    }
    ParseIntAfterSpace(lead, sign + (digits + rest));
  }

  lemma ParseDigitsOf(digits: string, rest: string)
    requires |digits| > 0 && AllDigits(digits)
    requires |rest| == 0 || !IsDigit(rest[0])
    ensures ParseDigits(digits + rest) == Num(DigitsValue(digits))
  {
    LeadingDigitsOf(digits, rest);
  }

  lemma ParseSignedOf(sign: string, unsigned: string)
    requires sign == "" || sign == "+" || sign == "-"
    requires |unsigned| > 0 && unsigned[0] != '+' && unsigned[0] != '-'
    ensures ParseSigned(sign + unsigned)
         == if sign == "-" then Negate(ParseDigits(unsigned)) else ParseDigits(unsigned)
  {
    if sign == "" {
      assert sign + unsigned == unsigned;
    } else {
      assert (sign + unsigned)[1..] == unsigned;
    }
  }

  lemma ParseIntAfterSpace(lead: string, body: string)
    requires AllWhiteSpace(lead)
    requires |body| == 0 || !IsWhiteSpace(body[0])
    ensures ParseInt(lead + body) == ParseSigned(body)
  {
    TrimStartSkips(lead, body);
  }

  lemma Regroup(a: string, b: string, c: string, d: string)
    ensures a + b + c + d == a + (b + (c + d))
    ensures (b + (c + d))[0..|b|] == b
  {
  }

  /** Digits and signs are neither white space nor each other. */
  lemma NotSpaceOrSign(c: char)
    requires IsDigit(c) || c == '+' || c == '-'
    ensures !IsWhiteSpace(c)
    ensures IsDigit(c) ==> c != '+' && c != '-'
  {
  }

  /** When no digit follows the white space and the optional sign,
      `parseInt` gives NaN. */
  lemma ParseIntNoDigits(lead: string, sign: string, rest: string)
    requires AllWhiteSpace(lead)
    requires sign == "" || sign == "+" || sign == "-"
    requires |rest| == 0 || !IsDigit(rest[0])
    requires sign == "" && |rest| > 0 ==>
      !IsWhiteSpace(rest[0]) && rest[0] != '+' && rest[0] != '-'
    ensures ParseInt(lead + sign + rest) == NaN
  {
    var body := sign + rest;
    assert lead + sign + rest == lead + body;
    assert ParseDigits(rest) == NaN;
    if sign == "" {
      assert body == rest;
    } else {
      NotSpaceOrSign(sign[0]);
      assert body[0] == sign[0] && body[1..] == rest;
    }
    ParseIntAfterSpace(lead, body);
  }

  function DigitChar(d: nat): (c: char)
    requires d < 10
    ensures IsDigit(c) && c as int - '0' as int == d
  {
    ('0' as int + d) as char
  }

  /** The decimal numeral of n, as `String(n)` writes it. */
  function NatToString(n: nat): (s: string)
    ensures |s| > 0 && AllDigits(s)
    decreases n
  {
    if n < 10 then [DigitChar(n)] else NatToString(n / 10) + [DigitChar(n % 10)]
  }

  function IntToString(n: int): string
  {
    if n < 0 then "-" + NatToString(-n) else NatToString(n)
  }

  lemma {:induction false} NatToStringValue(n: nat)
    ensures DigitsValue(NatToString(n)) == n
    decreases n
  {
    if n >= 10 {
      var s := NatToString(n);
      NatToStringValue(n / 10);
      assert s[..|s| - 1] == NatToString(n / 10);
    }
  }

  /** `parseInt` reads back the numeral of any integer, whatever non-digit
      text follows it. */
  lemma ParseIntRoundTrip(n: int, rest: string)
    requires |rest| == 0 || !IsDigit(rest[0])
    ensures ParseInt(IntToString(n) + rest) == Num(n)
  {
    var magnitude: nat := if n < 0 then -n else n;
    var sign := if n < 0 then "-" else "";
    NatToStringValue(magnitude);
    SignedNumeral(n, rest);
    ParseIntDigits("", sign, NatToString(magnitude), rest);
  }

  /** The numeral of n is its sign followed by the numeral of its magnitude. */
  lemma SignedNumeral(n: int, rest: string)
    ensures var magnitude: nat := if n < 0 then -n else n;
      "" + (if n < 0 then "-" else "") + NatToString(magnitude) + rest == IntToString(n) + rest
  {
  }
}
