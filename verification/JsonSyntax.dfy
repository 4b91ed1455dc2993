/**
 What the functions of module Json take the texts of RFC 8259 for: its escapes, numbers, blanks and
 structure, said without those functions.
 */
module JsonSyntax {
  import opened Json
  import opened JsonRoundTrip
  import opened Wrappers

  // ----- escapes: section 7 ---------------------------------------------------------------------

  /** The letter behind a backslash, and the number of the character it stands for. */
  predicate ShortEscape(letter: char, code: nat) {
    || (letter == '\"' && code == 0x22) || (letter == '\\' && code == 0x5C) || (letter == '/' && code == 0x2F)
    || (letter == 'b' && code == 8) || (letter == 'f' && code == 12) || (letter == 'n' && code == 10)
    || (letter == 'r' && code == 13) || (letter == 't' && code == 9)
  }

  lemma ShortEscapeRead(t: string, i: nat, code: nat)
    requires i < |t| && ShortEscape(t[i], code)
    ensures Unescape(t, i) == ([code as char], i + 1)
  {
  }

  /** A character is printed as itself, as its short escape, or as \u and its number; the solidus as itself. */
  lemma EscapePrinted(c: char, code: nat)
    requires c as int == code
    ensures code >= 32 && code != 0x22 && code != 0x5C ==> EscapeChar(c) == [c]
    ensures forall letter :: ShortEscape(letter, code) && code != 0x2F ==> EscapeChar(c) == ['\\', letter]
    ensures code < 32 && code !in {8, 9, 10, 12, 13} ==>
      var e := EscapeChar(c);
      |e| == 6 && e[..4] == "\\u00" && WritesDigit(e[4], code / 16) && WritesDigit(e[5], code % 16)
  {
  }

  // ----- blanks -------------------------------------------------------------------------------------

  /** Characters up to the space, but no NUL, are passed over: the blanks of section 2 and the other controls. */
  lemma {:induction false} SkipIs(t: string, i: nat)
    requires i <= |t|
    ensures forall k :: i <= k < Skip(t, i) ==> 0 < t[k] as int <= 32
    ensures Skip(t, i) < |t| ==> var c := t[Skip(t, i)] as int; c == 0 || c > 32
    decreases |t| - i
  {
    if i < |t| && 0 < t[i] as int <= 32 {
      SkipIs(t, i + 1);
    }
  }

  // ----- numbers: section 6 -----------------------------------------------------------------------

  predicate AllDigits(s: string) { forall k :: 0 <= k < |s| ==> '0' <= s[k] <= '9' }

  function TenTo(n: nat): nat { if n == 0 then 1 else 10 * TenTo(n - 1) }

  /** The number that a run of digits writes, each digit at its place. */
  function Value(s: string): nat
    requires AllDigits(s)
  {
    if s == "" then 0
    else
      var d: nat := s[0] as int - 0x30;
      d * TenTo(|s| - 1) + Value(s[1..])
  }

  lemma ValueCons(s: string)
    requires AllDigits(s) && s != ""
    ensures AllDigits(s[1..]) && s[0] as int >= 0x30 && TenTo(|s|) == 10 * TenTo(|s| - 1)
    ensures Value(s) == (s[0] as int - 0x30) * TenTo(|s| - 1) + Value(s[1..])
  {
  }

  lemma DigitStep(t: string, i: nat, n: real, s: string)
    requires HasAt(t, i, s) && AllDigits(s) && s != ""
    ensures i < |t| && HasAt(t, i + 1, s[1..]) && s[0] as int >= 0x30
    ensures Digits(t, i, n) == Digits(t, i + 1, n * 10.0 + (s[0] as int - 0x30) as real)
  {
  }

  lemma ExponentStep(t: string, i: nat, n: nat, s: string)
    requires HasAt(t, i, s) && AllDigits(s) && s != ""
    ensures i < |t| && HasAt(t, i + 1, s[1..]) && s[0] as int >= 0x30
    ensures Exponent(t, i, n) == Exponent(t, i + 1, n * 10 + (s[0] as int - 0x30))
  {
  }

  lemma RealStep(n: real, c: nat, p: nat, v: nat)
    ensures (n * 10.0 + c as real) * p as real + v as real == n * (10 * p) as real + (c * p + v) as real
  {
    assert (10 * p) as real == 10.0 * p as real && (c * p) as real == c as real * p as real;
    assert (n * 10.0 + c as real) * p as real == n * 10.0 * p as real + c as real * p as real;
  }

  lemma NatStep(n: nat, c: nat, p: nat, v: nat)
    ensures (n * 10 + c) * p + v == n * (10 * p) + (c * p + v)
  {
  }

  /** n with p behind it and v added. */
  function Moved(n: real, p: nat, v: nat): real { n * p as real + v as real }

  lemma MovedStep(n: real, c: nat, p: nat, v: nat)
    ensures Moved(n * 10.0 + c as real, p, v) == Moved(n, 10 * p, c * p + v)
  {
    RealStep(n, c, p, v);
  }

  lemma NoDigits(t: string, i: nat, n: real)
    requires i <= |t| && !IsDigit(At(t, i))
    ensures Digits(t, i, n) == (Moved(n, TenTo(0), 0), i)
  {
  }

  lemma {:induction false} DigitsMoved(t: string, i: nat, n: real, s: string)
    requires HasAt(t, i, s) && AllDigits(s) && !IsDigit(At(t, i + |s|))
    ensures Digits(t, i, n) == (Moved(n, TenTo(|s|), Value(s)), i + |s|)
    decreases |s|
  {
    if s == "" {
      assert Value("") == 0;
      hide *;
      NoDigits(t, i, n);
    } else {
      hide *;
      ValueCons(s);
      DigitStep(t, i, n, s);
      var c: nat := s[0] as int - 0x30;
      DigitsMoved(t, i + 1, n * 10.0 + c as real, s[1..]);
      MovedStep(n, c, TenTo(|s| - 1), Value(s[1..]));
    }
  }

  lemma DigitsAre(t: string, i: nat, n: real, s: string)
    requires HasAt(t, i, s) && AllDigits(s) && !IsDigit(At(t, i + |s|))
    ensures Digits(t, i, n) == (n * TenTo(|s|) as real + Value(s) as real, i + |s|)
  {
    DigitsMoved(t, i, n, s);
    hide Digits, TenTo, Value;
  }

  lemma {:induction false} ExponentIs(t: string, i: nat, n: nat, s: string)
    requires HasAt(t, i, s) && AllDigits(s) && !IsDigit(At(t, i + |s|))
    ensures Exponent(t, i, n) == (n * TenTo(|s|) + Value(s), i + |s|)
    decreases |s|
  {
    if s != "" {
      hide *;
      ValueCons(s);
      ExponentStep(t, i, n, s);
      var c: nat := s[0] as int - 0x30;
      ExponentIs(t, i + 1, n * 10 + c, s[1..]);
      NatStep(n, c, TenTo(|s| - 1), Value(s[1..]));
    }
  }

  /** The parts of a number: sign, digits, the digits of a fraction, and of an exponent with its mark and sign. */
  datatype NumberText = NumberText(minus: bool, whole: string, frac: string, mark: char, sign: string, exp: string)

  predicate IsNumber(n: NumberText) {
    && AllDigits(n.whole) && AllDigits(n.frac) && AllDigits(n.exp)
    && n.whole != "" && (n.whole == "0" || n.whole[0] != '0')
    && (n.mark == 'e' || n.mark == 'E') && (n.sign == "" || n.sign == "+" || n.sign == "-")
  }

  function Fraction(n: NumberText): string { if n.frac == "" then "" else "." + n.frac }

  function ExponentPart(n: NumberText): string { if n.exp == "" then "" else [n.mark] + (n.sign + n.exp) }

  function Text(n: NumberText): string {
    (if n.minus then "-" else "") + (n.whole + (Fraction(n) + ExponentPart(n)))
  }

  /** r is the number: digits and fraction, times ten to the exponent; said without dividing. */
  predicate IsWorth(r: real, n: NumberText)
    requires IsNumber(n)
  {
    var m := (Value(n.whole) * TenTo(|n.frac|) + Value(n.frac)) as real;
    var all := if n.minus then -m else m;
    if n.sign == "-" then r * TenTo(|n.frac| + Value(n.exp)) as real == all
    else r * TenTo(|n.frac|) as real == all * TenTo(Value(n.exp)) as real
  }

  // ----- powers of ten ---------------------------------------------------------------------------

  lemma PowerUp(k: int)
    ensures Pow10(k + 1) == 10.0 * Pow10(k)
  {
  }

  lemma {:induction false} PowerIs(n: nat)
    ensures Pow10(n) == TenTo(n) as real
    decreases n
  {
    if n > 0 {
      PowerIs(n - 1);
    }
  }

  lemma Regrouped(x: real, t: real)
    ensures x * (10.0 * t) == (10.0 * x) * t
  {
  }

  lemma {:induction false} Lowered(k: int, f: nat)
    ensures Pow10(k - f) * TenTo(f) as real == Pow10(k)
    decreases f
  {
    if f > 0 {
      Lowered(k, f - 1);
      PowerUp(k - f);
      hide Pow10;
      Regrouped(Pow10(k - f), TenTo(f - 1) as real);
    }
  }

  /** What the parser makes of the parts. */
  function Made(n: NumberText): real
    requires IsNumber(n)
  {
    var m := Value(n.whole) as real * TenTo(|n.frac|) as real + Value(n.frac) as real;
    Scaled(if n.minus then -1.0 else 1.0, m, (if n.sign == "-" then 0 - Value(n.exp) else Value(n.exp)) - |n.frac|)
  }

  lemma Worth(n: NumberText)
    requires IsNumber(n)
    ensures IsWorth(Made(n), n)
  {
    hide Value, Pow10, TenTo;
    var f, e := |n.frac|, Value(n.exp);
    var m := Value(n.whole) as real * TenTo(f) as real + Value(n.frac) as real;
    Together(Value(n.whole), TenTo(f), Value(n.frac));
    var sign := if n.minus then -1.0 else 1.0;
    if n.sign == "-" {
      Lowered(0, f + e);
      PowerIs(0);
      TenToNone();
      assert (0 - e) - f == 0 - (f + e);
      Times(sign, m, Pow10((0 - e) - f), TenTo(f + e) as real);
      assert Made(n) == sign * m * Pow10((0 - e) - f);
      assert Made(n) * TenTo(f + e) as real == sign * m;
    } else {
      Lowered(e, f);
      PowerIs(e);
      Times(sign, m, Pow10(e - f), TenTo(f) as real);
      assert Made(n) * TenTo(f) as real == sign * m * TenTo(e) as real;
    }
    assert n.minus ==> sign * m == -m;
  }

  lemma Together(c: nat, p: nat, v: nat)
    ensures c as real * p as real + v as real == (c * p + v) as real
  {
  }

  lemma TenToNone()
    ensures TenTo(0) == 1
  {
  }

  lemma Times(sign: real, m: real, x: real, t: real)
    ensures sign * m * x * t == sign * m * (x * t)
    ensures sign == 1.0 ==> sign * m == m
    ensures sign == -1.0 ==> sign * m == -m
  {
  }

  // ----- what the parser reads ---------------------------------------------------------------------

  /** The digits before the point, read with the leading zero passed over. */
  lemma WholeRead(t: string, i: nat, s: string)
    requires HasAt(t, i, s) && AllDigits(s) && s != "" && (s == "0" || s[0] != '0') && !IsDigit(At(t, i + |s|))
    ensures var p := if At(t, i) == '0' then i + 1 else i;
            (if '1' <= At(t, p) <= '9' then Digits(t, p, 0.0) else (0.0, p)) == (Value(s) as real, i + |s|)
  {
    HeadAt(t, i, s);
    if s != "0" {
      DigitsAre(t, i, 0.0, s);
    } else {
      assert s[1..] == "" && Value("") == 0;
    }
  }

  lemma FractionRead(t: string, p: nat, n: real, s: string)
    requires AllDigits(s) && HasAt(t, p, if s == "" then "" else "." + s)
    requires var q := p + (if s == "" then 0 else 1 + |s|); !IsDigit(At(t, q)) && At(t, q) != '.'
    ensures
      var (m, q) := if At(t, p) == '.' && IsDigit(At(t, p + 1)) then Digits(t, p + 1, n) else (n, p);
      m == n * TenTo(|s|) as real + Value(s) as real && q == p + (if s == "" then 0 else 1 + |s|)
  {
    if s != "" {
      Split(t, p, ".", s);
      HeadAt(t, p, ".");
      HeadAt(t, p + 1, s);
      DigitsAre(t, p + 1, n, s);
    }
  }

  /** parse_number up to the exponent: the sign, the digits read into one number, their end and the scale. */
  function Digitized(t: string, i: nat): (r: (bool, real, nat, int))
    requires i <= |t|
    ensures i <= r.2 <= |t|
  {
    var minus := At(t, i) == '-';
    var start := if minus then i + 1 else i;
    var from := if At(t, start) == '0' then start + 1 else start;
    var (w, p) := if '1' <= At(t, from) <= '9' then Digits(t, from, 0.0) else (0.0, from);
    var (m, q) := if At(t, p) == '.' && IsDigit(At(t, p + 1)) then Digits(t, p + 1, w) else (w, p);
    (minus, m, q, if q == p then 0 else p + 1 - q)
  }

  lemma NumberSteps(t: string, i: nat)
    requires i <= |t|
    ensures
      var (minus, m, q, scale) := Digitized(t, i);
      ParseNumber(t, i) ==
        if At(t, q) != 'e' && At(t, q) != 'E' then (Scaled(if minus then -1.0 else 1.0, m, scale), q)
        else
          var down := At(t, q + 1) == '-';
          var (e, r) := Exponent(t, if down || At(t, q + 1) == '+' then q + 2 else q + 1, 0);
          (Scaled(if minus then -1.0 else 1.0, m, if down then scale - e else scale + e), r)
  {
    hide Digits, Exponent, Scaled;
  }

  lemma ExponentRead(t: string, q: nat, n: NumberText)
    requires IsNumber(n) && n.exp != "" && HasAt(t, q, ExponentPart(n)) && !IsDigit(At(t, q + |ExponentPart(n)|))
    ensures At(t, q) == 'e' || At(t, q) == 'E'
    ensures
      var down := At(t, q + 1) == '-';
      down == (n.sign == "-") && q + 2 <= |t| &&
      Exponent(t, if down || At(t, q + 1) == '+' then q + 2 else q + 1, 0) == (Value(n.exp), q + |ExponentPart(n)|)
  {
    HeadAt(t, q, ExponentPart(n));
    Split(t, q, [n.mark], n.sign + n.exp);
    Split(t, q + 1, n.sign, n.exp);
    HeadAt(t, q + 1 + |n.sign|, n.exp);
    if n.sign != "" {
      HeadAt(t, q + 1, n.sign);
    }
    ExponentIs(t, q + 1 + |n.sign|, 0, n.exp);
  }

  /** What stands behind the digits of a part. */
  lemma Behind(t: string, p: nat, n: NumberText)
    requires IsNumber(n) && HasAt(t, p, Fraction(n) + ExponentPart(n))
    requires EndsNumber(At(t, p + |Fraction(n)| + |ExponentPart(n)|))
    ensures HasAt(t, p, Fraction(n)) && HasAt(t, p + |Fraction(n)|, ExponentPart(n))
    ensures !IsDigit(At(t, p)) && !IsDigit(At(t, p + |Fraction(n)|)) && At(t, p + |Fraction(n)|) != '.'
    ensures n.exp == "" ==> At(t, p + |Fraction(n)|) != 'e' && At(t, p + |Fraction(n)|) != 'E'
    ensures !IsDigit(At(t, p + |Fraction(n)| + |ExponentPart(n)|))
  {
    Split(t, p, Fraction(n), ExponentPart(n));
    if n.exp != "" {
      HeadAt(t, p + |Fraction(n)|, ExponentPart(n));
    }
    if n.frac != "" {
      HeadAt(t, p, Fraction(n));
    }
  }

  /** Where the parts of a number stand: start is behind the sign, p behind the whole digits. */
  lemma PartsAt(t: string, i: nat, n: NumberText)
    requires IsNumber(n) && HasAt(t, i, Text(n)) && EndsNumber(At(t, i + |Text(n)|))
    ensures
      var start := i + if n.minus then 1 else 0;
      var p := start + |n.whole|;
      && i < |t| && (At(t, i) == '-' <==> n.minus) && HasAt(t, start, n.whole)
      && HasAt(t, p, Fraction(n) + ExponentPart(n)) && EndsNumber(At(t, p + |Fraction(n)| + |ExponentPart(n)|))
      && i + |Text(n)| - |ExponentPart(n)| == p + |Fraction(n)|
  {
    hide EndsNumber, HasAt, Fraction, ExponentPart;
    var sign, tail := if n.minus then "-" else "", Fraction(n) + ExponentPart(n);
    Split(t, i, sign, n.whole + tail);
    Split(t, i + |sign|, n.whole, tail);
    HeadAt(t, i + |sign|, n.whole);
    if n.minus {
      HeadAt(t, i, "-");
    }
  }

  lemma DigitizedSteps(t: string, i: nat, start: nat, w: real, p: nat)
    requires i <= |t| && start == (if At(t, i) == '-' then i + 1 else i) && start <= |t| && p <= |t|
    requires var from := if At(t, start) == '0' then start + 1 else start;
             (if '1' <= At(t, from) <= '9' then Digits(t, from, 0.0) else (0.0, from)) == (w, p)
    ensures var (m, q) := if At(t, p) == '.' && IsDigit(At(t, p + 1)) then Digits(t, p + 1, w) else (w, p);
            Digitized(t, i) == (At(t, i) == '-', m, q, if q == p then 0 else p + 1 - q)
  {
    hide Digits;
  }

  lemma DigitizedIs(t: string, i: nat, n: NumberText)
    requires IsNumber(n) && HasAt(t, i, Text(n)) && EndsNumber(At(t, i + |Text(n)|))
    ensures
      var m := Value(n.whole) as real * TenTo(|n.frac|) as real + Value(n.frac) as real;
      var q := i + |Text(n)| - |ExponentPart(n)|;
      Digitized(t, i) == (n.minus, m, q, 0 - |n.frac|)
    ensures var q := i + |Text(n)| - |ExponentPart(n)|;
            HasAt(t, q, ExponentPart(n)) && !IsDigit(At(t, q + |ExponentPart(n)|)) &&
            (n.exp == "" ==> At(t, q) != 'e' && At(t, q) != 'E')
  {
    hide Digits, Value, EndsNumber, HasAt, TenTo, Text, ExponentPart, Digitized;
    PartsAt(t, i, n);
    var start := i + if n.minus then 1 else 0;
    var p := start + |n.whole|;
    Behind(t, p, n);
    WholeRead(t, start, n.whole);
    var w := Value(n.whole) as real;
    FractionRead(t, p, w, n.frac);
    DigitizedSteps(t, i, start, w, p);
  }

  /** A number of the grammar is read as its worth, and through its last digit. */
  lemma NumberIs(t: string, i: nat, n: NumberText)
    requires IsNumber(n) && HasAt(t, i, Text(n)) && EndsNumber(At(t, i + |Text(n)|))
    ensures ParseNumber(t, i) == (Made(n), i + |Text(n)|) && IsWorth(ParseNumber(t, i).0, n)
  {
    hide Digitized, Exponent, Scaled, ParseNumber, Value, EndsNumber, IsWorth, HasAt, Text, TenTo, IsNumber;
    DigitizedIs(t, i, n);
    NumberSteps(t, i);
    if n.exp != "" {
      ExponentRead(t, i + |Text(n)| - |ExponentPart(n)|, n);
    } else {
      NoValue();
    }
    Worth(n);
  }

  lemma NoValue()
    ensures Value("") == 0
  {
  }

  // ----- structure: sections 3 to 5 ---------------------------------------------------------------

  function Joined(parts: seq<string>, separator: string): string {
    if parts == [] then ""
    else if |parts| == 1 then parts[0]
    else parts[0] + (separator + Joined(parts[1..], separator))
  }

  function Texts(items: seq<Json>, depth: nat, fmt: bool): (r: seq<string>)
    requires forall k :: 0 <= k < |items| ==> Printable(items[k])
    ensures |r| == |items|
  {
    if items == [] then [] else [PrintValue(items[0], depth, fmt)] + Texts(items[1..], depth, fmt)
  }

  lemma {:induction false} ItemsJoined(items: seq<Json>, depth: nat, fmt: bool)
    requires forall k :: 0 <= k < |items| ==> Printable(items[k])
    ensures PrintItems(items, depth, fmt) == Joined(Texts(items, depth, fmt), if fmt then ", " else ",")
    decreases |items|
  {
    hide PrintValue;
    if items != [] {
      ItemsText(items, depth, fmt);
      var texts := Texts(items, depth, fmt);
      assert texts[1..] == Texts(items[1..], depth, fmt);
      if |items| > 1 {
        ItemsJoined(items[1..], depth, fmt);
        var rest := PrintItems(items[1..], depth, fmt);
        assert "," + (If(fmt, " ") + rest) == (if fmt then ", " else ",") + rest;
      }
    }
  }

  /** An array is its elements in brackets, with commas between. */
  lemma ArrayText(items: seq<Json>, depth: nat, fmt: bool)
    requires forall k :: 0 <= k < |items| ==> Printable(items[k])
    ensures Printable(Array(items))
    ensures PrintValue(Array(items), depth, fmt) ==
        "[" + (Joined(Texts(items, depth + 1, fmt), if fmt then ", " else ",") + "]")
  {
    PrintableItems(items, depth, fmt);
    ItemsJoined(items, depth + 1, fmt);
  }

  /** One member on its line. */
  function Line(m: Member, depth: nat, fmt: bool): string
    requires NulFree(m.name) && Printable(m.value)
  {
    (if fmt then Tabs(depth) else "") + (PrintString(m.name) + ((if fmt then ":\t" else ":") + PrintValue(m.value, depth, fmt)))
  }

  function Lines(ms: seq<Member>, depth: nat, fmt: bool): (r: seq<string>)
    requires forall k :: 0 <= k < |ms| ==> NulFree(ms[k].name) && Printable(ms[k].value)
    ensures |r| == |ms|
  {
    if ms == [] then [] else [Line(ms[0], depth, fmt)] + Lines(ms[1..], depth, fmt)
  }

  lemma LinesCons(ms: seq<Member>, depth: nat, fmt: bool)
    requires ms != [] && forall k :: 0 <= k < |ms| ==> NulFree(ms[k].name) && Printable(ms[k].value)
    ensures Lines(ms, depth, fmt) == [Line(ms[0], depth, fmt)] + Lines(ms[1..], depth, fmt)
    ensures PrintMembers(ms, depth, fmt) == If(fmt, Tabs(depth)) + PrintMember(ms, depth, fmt)
  {
    hide Line, PrintMember;
  }

  lemma JoinedCons(first: string, rest: seq<string>, separator: string)
    ensures Joined([first] + rest, separator) == first + if rest == [] then "" else separator + Joined(rest, separator)
  {
    assert ([first] + rest)[1..] == rest;
  }

  lemma LineIs(m: Member, depth: nat, fmt: bool, end: string)
    requires NulFree(m.name) && Printable(m.value)
    ensures If(fmt, Tabs(depth)) +
      (PrintString(m.name) + (":" + (If(fmt, "\t") + (PrintValue(m.value, depth, fmt) + end)))) == Line(m, depth, fmt) + end
  {
    hide PrintString, PrintValue, Tabs;
    var name, value := PrintString(m.name), PrintValue(m.value, depth, fmt);
    assert ":" + If(fmt, "\t") == if fmt then ":\t" else ":";
    Regroup(If(fmt, Tabs(depth)), name, ":", If(fmt, "\t"), value, end);
  }

  lemma Regroup(a: string, b: string, c: string, d: string, e: string, f: string)
    ensures a + (b + (c + (d + (e + f)))) == (a + (b + ((c + d) + e))) + f
  {
  }

  lemma {:induction false} MembersJoined(ms: seq<Member>, depth: nat, fmt: bool)
    requires forall k :: 0 <= k < |ms| ==> NulFree(ms[k].name) && Printable(ms[k].value)
    ensures PrintMembers(ms, depth, fmt) ==
      Joined(Lines(ms, depth, fmt), if fmt then ",\n" else ",") + (if fmt && ms != [] then "\n" else "")
    decreases |ms|
  {
    if ms != [] {
      hide *;
      MemberText(ms, depth, fmt);
      LinesCons(ms, depth, fmt);
      var more := PrintMembers(ms[1..], depth, fmt);
      var end := if |ms| == 1 then If(fmt, "\n") else "," + (If(fmt, "\n") + more);
      LineIs(ms[0], depth, fmt, end);
      MembersJoined(ms[1..], depth, fmt);
      var line, lines, separator := Line(ms[0], depth, fmt), Lines(ms[1..], depth, fmt), if fmt then ",\n" else ",";
      JoinedCons(line, lines, separator);
      var close := if fmt then "\n" else "";
      IfIs(fmt, "\n");
      if |ms| > 1 {
        CommaFirst(fmt, more);
        Chain(line, separator, Joined(lines, separator), close);
      } else {
        LinesNone(ms[1..], depth, fmt);
      }
    }
  }

  lemma LinesNone(ms: seq<Member>, depth: nat, fmt: bool)
    requires ms == []
    ensures Lines(ms, depth, fmt) == []
  {
  }

  lemma CommaFirst(fmt: bool, more: string)
    ensures "," + (If(fmt, "\n") + more) == (if fmt then ",\n" else ",") + more
  {
  }

  lemma Chain(line: string, separator: string, rest: string, close: string)
    ensures line + (separator + (rest + close)) == (line + (separator + rest)) + close
  {
  }

  lemma IfIs(b: bool, s: string)
    ensures If(b, s) == if b then s else ""
  {
  }

  lemma ObjectIs(ms: seq<Member>, depth: nat, fmt: bool)
    requires forall k :: 0 <= k < |ms| ==> NulFree(ms[k].name) && Printable(ms[k].value)
    ensures Printable(Object(ms))
    ensures PrintValue(Object(ms), depth, fmt) ==
      "{" + (If(fmt, "\n") + (PrintMembers(ms, depth + 1, fmt) + (If(fmt, Tabs(depth)) + "}")))
  {
    hide PrintMembers;
  }

  lemma Around(body: string, end: string, tabs: string)
    ensures "{" + ("\n" + ((body + end) + (tabs + "}"))) == "{\n" + (body + (end + (tabs + "}")))
    ensures "{" + ("" + ((body + "") + ("" + "}"))) == "{" + (body + "}")
  {
  }

  /** An object is its members, each on its line if formatted, in braces and with commas between. */
  lemma ObjectText(ms: seq<Member>, depth: nat, fmt: bool)
    requires forall k :: 0 <= k < |ms| ==> NulFree(ms[k].name) && Printable(ms[k].value)
    ensures Printable(Object(ms))
    ensures PrintValue(Object(ms), depth, fmt) ==
      if fmt then
        "{\n" + (Joined(Lines(ms, depth + 1, fmt), ",\n") + ((if ms == [] then "" else "\n") + (Tabs(depth) + "}")))
      else "{" + (Joined(Lines(ms, depth + 1, fmt), ",") + "}")
  {
    hide *;
    ObjectIs(ms, depth, fmt);
    MembersJoined(ms, depth + 1, fmt);
    IfIs(fmt, "\n");
    IfIs(fmt, Tabs(depth));
    Around(Joined(Lines(ms, depth + 1, fmt), if fmt then ",\n" else ","), if ms == [] then "" else "\n", Tabs(depth));
  }

  lemma TabsAre(n: nat)
    ensures |Tabs(n)| == n && forall k :: 0 <= k < n ==> Tabs(n)[k] as int == 9
  {
  }

  /** The other values, printed and read. */
  lemma Words(depth: nat, fmt: bool)
    ensures PrintValue(Null, depth, fmt) == "null" && Parse("null") == Some(Null)
    ensures PrintValue(True, depth, fmt) == "true" && Parse("true") == Some(True)
    ensures PrintValue(False, depth, fmt) == "false" && Parse("false") == Some(False)
  {
    SkipIs("null", 0);
    SkipIs("true", 0);
    SkipIs("false", 0);
    RoundTrip(Null, fmt);
    RoundTrip(True, fmt);
    RoundTrip(False, fmt);
  }
}
