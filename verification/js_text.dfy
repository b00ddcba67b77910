/**
 The two ECMAScript string built-ins the score sheet relies on, over Dafny
 strings (sequences of Unicode scalar values):

 - `String.prototype.trim`, used to validate and store a new player's name;
 - the global `parseInt` called without a radix (section 19.2.5 of ECMA-262),
   used to read a score typed into a cell.

 `parseInt` produces a Number; here the result is `Some(n)` for a mathematical
 integer `n`, or `None` where ECMAScript produces NaN.
 */
module JsText {
  import opened Seqs

  datatype Option<+T> = None | Some(value: T)

  /** Code point ranges of WhiteSpace (section 12.2 of ECMA-262, with the Zs
      category of Unicode 15) and LineTerminator (section 12.3): tab, line feed,
      vertical tab, form feed, carriage return, space, no-break space, ogham
      space mark, the en quad to hair space block, line and paragraph
      separators, narrow no-break space, medium mathematical space, ideographic
      space and the byte order mark. */
  const WhiteRanges: seq<(int, int)> := [
    (0x09, 0x0D), (0x20, 0x20), (0xA0, 0xA0), (0x1680, 0x1680),
    (0x2000, 0x200A), (0x2028, 0x2029), (0x202F, 0x202F), (0x205F, 0x205F),
    (0x3000, 0x3000), (0xFEFF, 0xFEFF)
  ]

  predicate InRanges(n: int, rs: seq<(int, int)>) {
    |rs| > 0 && ((rs[0].0 <= n <= rs[0].1) || InRanges(n, rs[1..]))
  }

  /** The characters `trim` and `parseInt` skip. */
  predicate IsWhite(c: char) {
    InRanges(c as int, WhiteRanges)
  }

  lemma {:induction false} OutsideRanges(n: int, rs: seq<(int, int)>)
    requires forall k :: 0 <= k < |rs| ==> n < rs[k].0 || rs[k].1 < n
    ensures !InRanges(n, rs)
    decreases |rs|
  {
    if |rs| > 0 {
      OutsideRanges(n, rs[1..]);
    }
  }

  /** Printable ASCII other than the space is never white. */
  lemma VisibleAsciiNotWhite(c: char)
    requires 0x20 < c as int < 0x7F
    ensures !IsWhite(c)
  {
    OutsideRanges(c as int, WhiteRanges);
  }

  predicate AllWhite(s: string) {
    forall i :: 0 <= i < |s| ==> IsWhite(s[i])
  }

  /** Length of the longest all-white prefix of `s`. */
  function LeadingWhite(s: string): (n: nat)
    ensures n <= |s|
    ensures AllWhite(s[..n])
    ensures n < |s| ==> !IsWhite(s[n])
  {
    if |s| > 0 && IsWhite(s[0]) then 1 + LeadingWhite(s[1..]) else 0
  }

  /** Length of the longest all-white suffix of `s`. */
  function TrailingWhite(s: string): (n: nat)
    ensures n <= |s|
    ensures AllWhite(s[|s| - n..])
    ensures n < |s| ==> !IsWhite(s[|s| - n - 1])
  {
    if |s| > 0 && IsWhite(s[|s| - 1]) then 1 + TrailingWhite(s[..|s| - 1]) else 0
  }

  /** A string with no white character at either end. */
  predicate IsTrimmed(t: string) {
    t == [] || (!IsWhite(t[0]) && !IsWhite(t[|t| - 1]))
  }

  /** `String.prototype.trim`: drop white characters at both ends. The result is
      the slice of `s` that starts at its first non-white character, and what
      follows it in `s` is all white. */
  function Trim(s: string): (r: string)
    ensures IsTrimmed(r)
    ensures r == [] <==> AllWhite(s)
    ensures LeadingWhite(s) + |r| <= |s|
    ensures r == s[LeadingWhite(s)..LeadingWhite(s) + |r|]
    ensures AllWhite(s[LeadingWhite(s) + |r|..])
  {
    var lead := LeadingWhite(s);
    var trail := TrailingWhite(s[lead..]);
    assert s[lead..][|s| - lead - trail..] == s[|s| - trail..];
    assert trail < |s| - lead ==> s[lead..][|s| - lead - trail - 1] == s[|s| - trail - 1];
    TrimEnds(s, lead, trail);
    TrimEmpty(s, lead, trail);
    s[lead..|s| - trail]
  }

  /** A slice that starts and ends just inside the white margins is trimmed. */
  lemma TrimEnds(s: string, lead: nat, trail: nat)
    requires lead + trail <= |s|
    requires lead < |s| ==> !IsWhite(s[lead])
    requires lead + trail < |s| ==> !IsWhite(s[|s| - trail - 1])
    ensures IsTrimmed(s[lead..|s| - trail])
  {
  }

  /** Between white margins, nothing is left exactly when everything is white. */
  lemma TrimEmpty(s: string, lead: nat, trail: nat)
    requires lead + trail <= |s|
    requires AllWhite(s[..lead]) && AllWhite(s[|s| - trail..])
    requires lead < |s| ==> !IsWhite(s[lead])
    ensures s[lead..|s| - trail] == [] <==> AllWhite(s)
  {
    if lead + trail == |s| {
      assert s == s[..lead] + s[|s| - trail..];
      AllWhiteConcat(s[..lead], s[|s| - trail..]);
    }
  }

  lemma AllWhiteConcat(a: string, b: string)
    requires AllWhite(a) && AllWhite(b)
    ensures AllWhite(a + b)
  {
  }

  lemma {:induction false} LeadingWhiteAppend(w: string, s: string)
    requires AllWhite(w)
    ensures LeadingWhite(w + s) == |w| + LeadingWhite(s)
    decreases |w|
  {
    if w != [] {
      assert (w + s)[1..] == w[1..] + s;
      LeadingWhiteAppend(w[1..], s);
    } else {
      assert w + s == s;
    }
  }

  lemma {:induction false} TrailingWhiteAppend(s: string, w: string)
    requires AllWhite(w)
    ensures TrailingWhite(s + w) == TrailingWhite(s) + |w|
    decreases |w|
  {
    if w != [] {
      assert (s + w)[..|s + w| - 1] == s + w[..|w| - 1];
      TrailingWhiteAppend(s, w[..|w| - 1]);
    } else {
      assert s + w == s;
    }
  }

  /** Trimming is characterised by its result: whatever white padding surrounds a
      trimmed string, `Trim` recovers exactly that string. */
  lemma TrimPadded(w1: string, t: string, w2: string)
    requires AllWhite(w1) && AllWhite(w2) && IsTrimmed(t)
    ensures Trim(w1 + t + w2) == t
  {
    var s := w1 + t + w2;
    if t == [] {
      assert AllWhite(s) by {
        forall i | 0 <= i < |s| ensures IsWhite(s[i]) {
          if i < |w1| { assert s[i] == w1[i]; } else { assert s[i] == w2[i - |w1|]; }
        }
      }
    } else {
      assert s == w1 + (t + w2);
      LeadingWhiteAppend(w1, t + w2);
      assert LeadingWhite(s) == |w1|;
      var u := s[|w1|..];
      assert u == t + w2;
      TrailingWhiteAppend(t, w2);
      assert TrailingWhite(t) == 0;
    }
  }

  /** Trimming a second time changes nothing, so a stored name stays trimmed. */
  lemma TrimIdempotent(s: string)
    ensures Trim(Trim(s)) == Trim(s)
  {
    TrimPadded([], Trim(s), []);
    assert [] + Trim(s) + [] == Trim(s);
  }

  // ---------------------------------------------------------------------------
  // Digits
  // ---------------------------------------------------------------------------

  /** The value of `c` as a digit in radices up to 36 (`0`-`9`, then `a`-`z` or
      `A`-`Z` for 10 to 35); 36 for anything that is a digit in no radix. */
  function DigitValue(c: char): (v: nat)
    ensures v <= 36
  {
    if '0' <= c <= '9' then c as int - '0' as int
    else if 'a' <= c <= 'z' then c as int - 'a' as int + 10
    else if 'A' <= c <= 'Z' then c as int - 'A' as int + 10
    else 36
  }

  predicate IsRadixDigit(c: char, radix: nat) {
    DigitValue(c) < radix
  }

  predicate AllRadixDigits(s: string, radix: nat) {
    forall i :: 0 <= i < |s| ==> IsRadixDigit(s[i], radix)
  }

  /** Length of the longest prefix of `s` made of radix digits. */
  function DigitRun(s: string, radix: nat): (n: nat)
    ensures n <= |s|
    ensures AllRadixDigits(s[..n], radix)
    ensures n < |s| ==> !IsRadixDigit(s[n], radix)
  {
    if |s| > 0 && IsRadixDigit(s[0], radix) then 1 + DigitRun(s[1..], radix) else 0
  }

  /** The number written by the digit string `ds`, most significant digit first. */
  function DigitsValue(ds: string, radix: nat): nat {
    if ds == [] then 0
    else DigitsValue(ds[..|ds| - 1], radix) * radix + DigitValue(ds[|ds| - 1])
  }

  // ---------------------------------------------------------------------------
  // parseInt
  // ---------------------------------------------------------------------------

  /** `s` without its leading white space. */
  function AfterWhite(s: string): string {
    s[LeadingWhite(s)..]
  }

  predicate HasHexPrefix(u: string) {
    |u| >= 2 && u[0] == '0' && (u[1] == 'x' || u[1] == 'X')
  }

  /** The value of the longest run of radix digits at the start of `s`, if any. */
  function ReadDigits(s: string, radix: nat): Option<int> {
    var n := DigitRun(s, radix);
    if n == 0 then None else Some(DigitsValue(s[..n], radix))
  }

  /** The unsigned part of `parseInt`: radix 16 after a `0x` or `0X` prefix,
      radix 10 otherwise; no digits gives NaN. */
  function ParseMagnitude(u: string): Option<int> {
    if HasHexPrefix(u) then ReadDigits(u[2..], 16) else ReadDigits(u, 10)
  }

  /** `t` with at most one leading sign character removed. */
  function DropSign(t: string): string {
    if |t| > 0 && (t[0] == '-' || t[0] == '+') then t[1..] else t
  }

  /** An optional sign, then the magnitude; `-` negates it. */
  function ParseSigned(t: string): Option<int> {
    match ParseMagnitude(DropSign(t))
    case None => None
    case Some(m) => Some(if |t| > 0 && t[0] == '-' then -m else m)
  }

  /** `parseInt(s)` with the radix left undefined: skip white space, then read
      an optional sign and the magnitude. */
  function ParseInt(s: string): Option<int> {
    ParseSigned(AfterWhite(s))
  }

  /** `parseInt(s) || 0`: NaN, and the negative zero of `"-0"`, both become 0. */
  function ParseScore(s: string): int {
    match ParseInt(s)
    case None => 0
    case Some(v) => v
  }

  // ---------------------------------------------------------------------------
  // Decimal formatting: the inverse the parse is checked against
  // ---------------------------------------------------------------------------

  function DecimalDigit(d: nat): (c: char)
    requires d < 10
    ensures IsRadixDigit(c, 10) && DigitValue(c) == d
  {
    ('0' as int + d) as char
  }

  /** Decimal numeral of `n` with no leading zero. */
  function NatToDecimal(n: nat): (s: string)
    ensures |s| > 0 && AllRadixDigits(s, 10)
    ensures |s| > 1 ==> s[0] != '0'
    ensures DigitsValue(s, 10) == n
  {
    if n < 10 then [DecimalDigit(n)]
    else
      var s := NatToDecimal(n / 10) + [DecimalDigit(n % 10)];
      assert s[..|s| - 1] == NatToDecimal(n / 10);
      s
  }

  /** How an integer Number is written as a string: `-` for negatives, then the
      decimal numeral of the magnitude. */
  function IntToDecimal(n: int): string {
    if n < 0 then "-" + NatToDecimal(-n) else NatToDecimal(n)
  }

  // ---------------------------------------------------------------------------
  // Properties of the parse
  // ---------------------------------------------------------------------------

  lemma {:induction false} DigitRunAll(ds: string, tail: string, radix: nat)
    requires AllRadixDigits(ds, radix)
    requires |tail| > 0 ==> !IsRadixDigit(tail[0], radix)
    ensures DigitRun(ds + tail, radix) == |ds|
    decreases |ds|
  {
    if ds == [] {
      assert ds + tail == tail;
    } else {
      assert (ds + tail)[1..] == ds[1..] + tail;
      DigitRunAll(ds[1..], tail, radix);
    }
  }


  /** A string that starts with a sign or a digit has no leading white space. */
  lemma NoLeadingWhite(s: string)
    requires |s| > 0 && (s[0] == '-' || s[0] == '+' || DigitValue(s[0]) < 36)
    ensures LeadingWhite(s) == 0
  {
    VisibleAsciiNotWhite(s[0]);
  }

  lemma ReadDigitsAll(ds: string, tail: string, radix: nat)
    requires |ds| > 0 && AllRadixDigits(ds, radix)
    requires |tail| > 0 ==> !IsRadixDigit(tail[0], radix)
    ensures ReadDigits(ds + tail, radix) == Some(DigitsValue(ds, radix))
  {
    DigitRunAll(ds, tail, radix);
    assert (ds + tail)[..|ds|] == ds;
  }

  /** Leading white space never changes what `parseInt` reads. */
  lemma ParseSkipsWhite(w: string, s: string)
    requires AllWhite(w)
    ensures ParseInt(w + s) == ParseInt(s)
  {
    assert AfterWhite(w + s) == AfterWhite(s) by {
      LeadingWhiteAppend(w, s);
      assert (w + s)[|w| + LeadingWhite(s)..] == s[LeadingWhite(s)..];
    }
  }

  /** Reading a sign and a magnitude, once the magnitude is known. */
  lemma ParseSignedSome(t: string, v: int, negative: bool)
    requires LeadingWhite(t) == 0
    requires ParseMagnitude(DropSign(t)) == Some(v)
    requires negative <==> |t| > 0 && t[0] == '-'
    ensures ParseInt(t) == Some(if negative then -v else v)
  {
    ParseIntNoWhite(t);
    SignApplied(t, v);
  }

  lemma ParseIntNoWhite(t: string)
    requires LeadingWhite(t) == 0
    ensures ParseInt(t) == ParseSigned(t)
  {
    assert t[0..] == t;
  }

  lemma SignApplied(t: string, v: int)
    requires ParseMagnitude(DropSign(t)) == Some(v)
    ensures ParseSigned(t) == Some(if |t| > 0 && t[0] == '-' then -v else v)
  {
  }

  /** A signed decimal numeral starts without white space, and its magnitude is
      that of the numeral. */
  lemma SignedNumeral(s: string, sign: string, ds: string, tail: string)
    requires s == sign + ds + tail
    requires sign == "" || sign == "-" || sign == "+"
    requires |ds| > 0 && AllRadixDigits(ds, 10)
    requires |tail| > 0 ==> !IsRadixDigit(tail[0], 10)
    requires ds != "0" || |tail| == 0 || (tail[0] != 'x' && tail[0] != 'X')
    ensures LeadingWhite(s) == 0
    ensures ParseMagnitude(DropSign(s)) == Some(DigitsValue(ds, 10))
    ensures |s| > 0 && (s[0] == '-' <==> sign == "-")
  {
    var u := ds + tail;
    ConcatAssoc(sign, ds, tail);
    NoLeadingWhite(s);
    assert DropSign(s) == u;
    MagnitudeDecimal(ds, tail);
  }

  /** A decimal numeral followed by text that does not continue it reads as its
      value (a lone `0` followed by `x` or `X` would select radix 16 instead). */
  lemma MagnitudeDecimal(ds: string, tail: string)
    requires |ds| > 0 && AllRadixDigits(ds, 10)
    requires |tail| > 0 ==> !IsRadixDigit(tail[0], 10)
    requires ds != "0" || |tail| == 0 || (tail[0] != 'x' && tail[0] != 'X')
    ensures ParseMagnitude(ds + tail) == Some(DigitsValue(ds, 10))
  {
    var u := ds + tail;
    assert !HasHexPrefix(u) by {
      if |u| >= 2 && u[0] == '0' {
        if |ds| >= 2 {
          assert u[1] == ds[1];
        } else {
          assert ds == "0";
          assert u[1] == tail[0];
        }
      }
    }
    ReadDigitsAll(ds, tail, 10);
  }

  /** An optional sign followed by a decimal numeral of value `v` reads as `v`
      or `-v`, when the text after the numeral does not continue it (a lone `0`
      followed by `x` or `X` selects radix 16 instead, see `ParseHex`). */
  lemma ParseSignedDecimal(s: string, sign: string, ds: string, tail: string, v: int)
    requires s == sign + ds + tail
    requires sign == "" || sign == "-" || sign == "+"
    requires |ds| > 0 && AllRadixDigits(ds, 10) && v == DigitsValue(ds, 10)
    requires |tail| > 0 ==> !IsRadixDigit(tail[0], 10)
    requires ds != "0" || |tail| == 0 || (tail[0] != 'x' && tail[0] != 'X')
    ensures sign == "-" ==> ParseInt(s) == Some(-v)
    ensures sign != "-" ==> ParseInt(s) == Some(v)
  {
    SignedNumeral(s, sign, ds, tail);
    if sign == "-" {
      ParseSignedSome(s, v, true);
    } else {
      ParseSignedSome(s, v, false);
    }
  }

  /** A string whose text after white space and sign does not start with a
      decimal digit has no number in it, and scores 0. */
  lemma ParseNoDigits(s: string)
    requires var u := DropSign(AfterWhite(s)); u == [] || !IsRadixDigit(u[0], 10)
    ensures ParseInt(s) == None
    ensures ParseScore(s) == 0
  {
  }

  /** An optional sign, then a `0x` or `0X` prefix: the digits after the
      prefix are read in radix 16, and a minus sign negates them. */
  lemma ParseHex(sign: string, x: char, ds: string, tail: string, v: int)
    requires sign == "" || sign == "-" || sign == "+"
    requires x == 'x' || x == 'X'
    requires |ds| > 0 && AllRadixDigits(ds, 16) && v == DigitsValue(ds, 16)
    requires |tail| > 0 ==> !IsRadixDigit(tail[0], 16)
    ensures sign == "-" ==> ParseInt(sign + ['0', x] + ds + tail) == Some(-v)
    ensures sign != "-" ==> ParseInt(sign + ['0', x] + ds + tail) == Some(v)
  {
    var u := ['0', x] + (ds + tail);
    var s := sign + ['0', x] + ds + tail;
    assert s == sign + u by {
      ConcatAssoc(sign, ['0', x], ds);
      ConcatAssoc(sign + ['0', x], ds, tail);
      ConcatAssoc(['0', x], ds, tail);
      ConcatAssoc(sign, ['0', x] + ds, tail);
      ConcatAssoc(sign, ['0', x], ds + tail);
    }
    HexPrefixed(sign, u);
    assert ParseMagnitude(u) == Some(v) by {
      assert HasHexPrefix(u);
      assert u[2..] == ds + tail;
      ReadDigitsAll(ds, tail, 16);
    }
    ParseSignedSome(s, v, sign == "-");
  }

  /** A sign followed by `0`: no white space to skip, the sign is dropped, and
      the first character tells whether there was a minus sign. */
  lemma HexPrefixed(sign: string, u: string)
    requires sign == "" || sign == "-" || sign == "+"
    requires |u| > 0 && u[0] == '0'
    ensures LeadingWhite(sign + u) == 0
    ensures DropSign(sign + u) == u
    ensures (sign + u)[0] == '-' <==> sign == "-"
  {
    NoLeadingWhite(sign + u);
    if sign != "" {
      assert (sign + u)[1..] == u;
    }
  }

  /** A `0x` or `0X` prefix with no hexadecimal digit after it is no number:
      `parseInt` gives NaN and the score is 0, even though `0` is a digit. */
  lemma ParseHexNoDigits(sign: string, x: char, tail: string)
    requires sign == "" || sign == "-" || sign == "+"
    requires x == 'x' || x == 'X'
    requires |tail| > 0 ==> !IsRadixDigit(tail[0], 16)
    ensures ParseInt(sign + ['0', x] + tail) == None
    ensures ParseScore(sign + ['0', x] + tail) == 0
  {
    var u := ['0', x] + tail;
    var s := sign + ['0', x] + tail;
    ConcatAssoc(sign, ['0', x], tail);
    HexPrefixed(sign, u);
    assert s[0..] == s;
    assert HasHexPrefix(u) && u[2..] == tail;
  }

  /** The score parse inverts decimal formatting: every integer typed in its
      usual decimal form is read back as itself. */
  lemma ParseScoreRoundTrip(n: int)
    ensures ParseInt(IntToDecimal(n)) == Some(n)
    ensures ParseScore(IntToDecimal(n)) == n
  {
    var m := if n < 0 then -n else n;
    var ds := NatToDecimal(m);
    if n < 0 {
      ParseSignedDecimal(IntToDecimal(n), "-", ds, "", m);
    } else {
      ParseSignedDecimal(IntToDecimal(n), "", ds, "", m);
    }
  }
}
