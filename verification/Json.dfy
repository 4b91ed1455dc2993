/**
 What the cJSON printer and parser of esl/esl_json.c compute, and that they undo each
 other. Texts are C strings: a position at or past the end reads as NUL. The methods that
 fill buffers are in JsonPrinter and JsonParser.
 */
module Json {
  import opened Wrappers

  datatype Json =
    | Null | False | True
    | Number(d: real)
    | Str(s: string)
    | Array(items: seq<Json>)
    | Object(members: seq<Member>)

  datatype Member = Member(name: string, value: Json)

  const NUL: char := '\0'
  const BACKSPACE: char := '\U{8}'
  const FORM_FEED: char := '\U{C}'

  predicate NulFree(s: string) { forall i :: 0 <= i < |s| ==> s[i] != NUL }

  function At(t: string, i: nat): char { if i < |t| then t[i] else NUL }

  // ----- printing -------------------------------------------------------------------

  const INT_MAX: int := 0x7FFF_FFFF
  const INT_MIN: int := -0x8000_0000

  predicate IsInt(d: real) { d == d.Floor as real && INT_MIN <= d.Floor <= INT_MAX }

  /** The trees of C strings and int-valued numbers. */
  predicate Printable(j: Json) {
    match j
    case Number(d) => IsInt(d)
    case Str(s) => NulFree(s)
    case Array(items) => forall i :: 0 <= i < |items| ==> Printable(items[i])
    case Object(ms) => forall i :: 0 <= i < |ms| ==> NulFree(ms[i].name) && Printable(ms[i].value)
    case _ => true
  }

  function Digit(n: nat): char
    requires n < 10
  {
    '0' + n as char
  }

  /** %d */
  function NatText(n: nat): (s: string)
    ensures |s| > 0
  {
    if n < 10 then [Digit(n)] else NatText(n / 10) + [Digit(n % 10)]
  }

  function IntText(n: int): string { if n < 0 then "-" + NatText(-n) else NatText(n) }

  function HexDigit(n: nat): char
    requires n < 16
  {
    if n < 10 then '0' + n as char else 'a' + (n - 10) as char
  }

  /** One character of print_string_ptr. */
  function EscapeChar(c: char): (s: string) {
    if c as int > 31 && c != '\"' && c != '\\' then [c]
    else if c == '\\' then "\\\\"
    else if c == '\"' then "\\\""
    else if c == BACKSPACE then "\\b"
    else if c == FORM_FEED then "\\f"
    else if c == '\n' then "\\n"
    else if c == '\r' then "\\r"
    else if c == '\t' then "\\t"
    else "\\u00" + [HexDigit(c as nat / 16), HexDigit(c as nat % 16)]
  }

  function Escape(s: string): string {
    if s == "" then "" else EscapeChar(s[0]) + Escape(s[1..])
  }

  function PrintString(s: string): string { "\"" + (Escape(s) + "\"") }

  function Tabs(n: nat): string { if n == 0 then "" else "\t" + Tabs(n - 1) }

  function If(b: bool, s: string): string { if b then s else "" }

  function PrintValue(j: Json, depth: nat, fmt: bool): string
    requires Printable(j)
    decreases j, 2
  {
    match j
    case Null => "null"
    case False => "false"
    case True => "true"
    case Number(d) => IntText(d.Floor)
    case Str(s) => PrintString(s)
    case Array(items) => "[" + (PrintItems(items, depth + 1, fmt) + "]")
    case Object(ms) =>
      "{" + (If(fmt, "\n") + (PrintMembers(ms, depth + 1, fmt) + (If(fmt, Tabs(depth)) + "}")))
  }

  function PrintItems(items: seq<Json>, depth: nat, fmt: bool): string
    requires forall i :: 0 <= i < |items| ==> Printable(items[i])
    decreases items, 0
  {
    if items == [] then ""
    else
      PrintValue(items[0], depth, fmt) +
      (if |items| == 1 then "" else "," + (If(fmt, " ") + PrintItems(items[1..], depth, fmt)))
  }

  function PrintMembers(ms: seq<Member>, depth: nat, fmt: bool): string
    requires forall i :: 0 <= i < |ms| ==> NulFree(ms[i].name) && Printable(ms[i].value)
    decreases ms, 1
  {
    if ms == [] then "" else If(fmt, Tabs(depth)) + PrintMember(ms, depth, fmt)
  }

  /** From the name of the first member on. */
  function PrintMember(ms: seq<Member>, depth: nat, fmt: bool): string
    requires ms != [] && forall i :: 0 <= i < |ms| ==> NulFree(ms[i].name) && Printable(ms[i].value)
    decreases ms, 0
  {
    PrintString(ms[0].name) + (":" + (If(fmt, "\t") + (PrintValue(ms[0].value, depth, fmt) +
      (If(|ms| > 1, ",") + (If(fmt, "\n") + PrintMembers(ms[1..], depth, fmt))))))
  }

  // ----- parsing ----------------------------------------------------------------------

  /** skip */
  function Skip(t: string, i: nat): (r: nat)
    requires i <= |t|
    ensures i <= r <= |t|
    decreases |t| - i
  {
    if At(t, i) != NUL && At(t, i) as int <= 32 then Skip(t, i + 1) else i
  }

  predicate IsDigit(c: char) { '0' <= c <= '9' }

  predicate IsHexDigit(c: char) { '0' <= c <= '9' || 'a' <= c <= 'f' || 'A' <= c <= 'F' }

  function HexValue(c: char): nat
    requires IsHexDigit(c)
  {
    if IsDigit(c) then c as int - '0' as int
    else if 'a' <= c <= 'f' then c as int - 'a' as int + 10
    else c as int - 'A' as int + 10
  }

  predicate Hex4(t: string, i: nat) {
    IsHexDigit(At(t, i)) && IsHexDigit(At(t, i + 1)) && IsHexDigit(At(t, i + 2)) && IsHexDigit(At(t, i + 3))
  }

  /** scan_unicode on four hexadecimal digits. */
  function ScanUnicode(t: string, i: nat): (uc: nat)
    requires Hex4(t, i)
    ensures uc < 0x10000
  {
    HexValue(At(t, i)) * 0x1000 + HexValue(At(t, i + 1)) * 0x100 + HexValue(At(t, i + 2)) * 0x10 + HexValue(At(t, i + 3))
  }

  /** 0x10000 | ((hi & 0x3FF) << 10) | (lo & 0x3FF): an OR, not a sum. */
  function JoinSurrogates(hi: nat, lo: nat): (uc: nat)
    ensures 0 < uc < 0x20_0000
  {
    var x := (hi % 0x400) * 0x400 + lo % 0x400;
    if (x / 0x10000) % 2 == 1 then x else x + 0x10000
  }

  /** The UTF-8 bytes the parser writes for a code unit or joined pair. */
  function Utf8Chars(uc: nat): (s: string)
    requires 0 < uc < 0x20_0000
    ensures 1 <= |s| <= 4 && NulFree(s)
  {
    if uc < 0x80 then [uc as char]
    else if uc < 0x800 then [(0xC0 + uc / 0x40) as char, (0x80 + uc % 0x40) as char]
    else if uc < 0x10000 then
      [(0xE0 + uc / 0x1000) as char, (0x80 + uc / 0x40 % 0x40) as char, (0x80 + uc % 0x40) as char]
    else
      [(0xF0 + uc / 0x40000) as char, (0x80 + uc / 0x1000 % 0x40) as char,
       (0x80 + uc / 0x40 % 0x40) as char, (0x80 + uc % 0x40) as char]
  }

  /** What follows a backslash at i - 1: the characters it stands for and where reading goes on. */
  function Unescape(t: string, i: nat): (r: (string, nat))
    requires i <= |t|
    ensures i <= r.1 <= |t| && NulFree(r.0)
  {
    var c := At(t, i);
    if c == NUL then ("", i)
    else if c == 'b' then ([BACKSPACE], i + 1)
    else if c == 'f' then ([FORM_FEED], i + 1)
    else if c == 'n' then ("\n", i + 1)
    else if c == 'r' then ("\r", i + 1)
    else if c == 't' then ("\t", i + 1)
    else if c != 'u' then ([c], i + 1)
    else if !Hex4(t, i + 1) then ("", i + 1)
    else
      var uc := ScanUnicode(t, i + 1);
      if 0xDC00 <= uc <= 0xDFFF || uc == 0 then ("", i + 5)
      else if !(0xD800 <= uc <= 0xDBFF) then (Utf8Chars(uc), i + 5)
      else if At(t, i + 5) != '\\' || At(t, i + 6) != 'u' || !Hex4(t, i + 7) then ("", i + 5)
      else
        var uc2 := ScanUnicode(t, i + 7);
        if 0xDC00 <= uc2 <= 0xDFFF then (Utf8Chars(JoinSurrogates(uc, uc2)), i + 11) else ("", i + 11)
  }

  /** The body of a string literal from i up to its closing quote or the end of the text. */
  function StringBody(t: string, i: nat): (r: (string, nat))
    requires i <= |t|
    ensures i <= r.1 <= |t| && NulFree(r.0)
    decreases |t| - i
  {
    var c := At(t, i);
    if c == '\"' || c == NUL then ("", i)
    else if c != '\\' then
      var (rest, e) := StringBody(t, i + 1);
      ([c] + rest, e)
    else
      var (out, next) := Unescape(t, i + 1);
      var (rest, e) := StringBody(t, next);
      (out + rest, e)
  }

  function ParseString(t: string, i: nat): (r: Option<(string, nat)>)
    requires i <= |t|
    ensures r.Some? ==> i < r.value.1 <= |t|
  {
    if At(t, i) != '\"' then None
    else
      var (s, e) := StringBody(t, i + 1);
      Some((s, if At(t, e) == '\"' then e + 1 else e))
  }

  function Pow10(k: int): real
    decreases if k < 0 then -k else k
  {
    if k == 0 then 1.0 else if k > 0 then 10.0 * Pow10(k - 1) else Pow10(k + 1) / 10.0
  }

  function Scaled(sign: real, n: real, k: int): real { sign * n * Pow10(k) }

  /** A run of digits read into n, and its end. */
  function Digits(t: string, i: nat, n: real): (r: (real, nat))
    requires i <= |t|
    ensures i <= r.1 <= |t|
    decreases |t| - i
  {
    if !IsDigit(At(t, i)) then (n, i)
    else Digits(t, i + 1, n * 10.0 + (At(t, i) as int - '0' as int) as real)
  }

  function Exponent(t: string, i: nat, n: nat): (r: (nat, nat))
    requires i <= |t|
    ensures i <= r.1 <= |t|
    decreases |t| - i
  {
    if !IsDigit(At(t, i)) then (n, i)
    else Exponent(t, i + 1, n * 10 + (At(t, i) as int - '0' as int))
  }

  /** parse_number, over the reals. */
  function ParseNumber(t: string, i: nat): (r: (real, nat))
    requires i <= |t|
    ensures i <= r.1 <= |t|
    ensures At(t, i) == '-' || IsDigit(At(t, i)) ==> i < r.1
  {
    var sign := if At(t, i) == '-' then -1.0 else 1.0;
    var p := if At(t, i) == '-' then i + 1 else i;
    var p := if At(t, p) == '0' then p + 1 else p;
    var (n, p) := if '1' <= At(t, p) <= '9' then Digits(t, p, 0.0) else (0.0, p);
    var (m, q) := if At(t, p) == '.' && IsDigit(At(t, p + 1)) then Digits(t, p + 1, n) else (n, p);
    var scale := if q == p then 0 else -(q - p - 1);
    if At(t, q) != 'e' && At(t, q) != 'E' then (Scaled(sign, m, scale), q)
    else
      var s := if At(t, q + 1) == '-' then -1 else 1;
      var from := if At(t, q + 1) == '+' || At(t, q + 1) == '-' then q + 2 else q + 1;
      var (e, r) := Exponent(t, from, 0);
      (Scaled(sign, m, scale + e * s), r)
  }

  /** strncmp of the text at i with s */
  predicate HasAt(t: string, i: nat, s: string)
    ensures HasAt(t, i, s) ==> i + |s| <= |t|
    decreases |s|
  {
    if s == "" then i <= |t| else i < |t| && t[i] == s[0] && HasAt(t, i + 1, s[1..])
  }

  function ParseValue(t: string, i: nat): (r: Option<(Json, nat)>)
    requires i <= |t|
    ensures r.Some? ==> i < r.value.1 <= |t|
    decreases |t| - i, 0
  {
    if HasAt(t, i, "null") then Some((Null, i + 4))
    else if HasAt(t, i, "false") then Some((False, i + 5))
    else if HasAt(t, i, "true") then Some((True, i + 4))
    else if At(t, i) == '\"' then
      var r := ParseString(t, i);
      if r.None? then None else Some((Str(r.value.0), r.value.1))
    else if At(t, i) == '-' || IsDigit(At(t, i)) then
      var (d, e) := ParseNumber(t, i);
      Some((Number(d), e))
    else if At(t, i) == '[' then
      var p := Skip(t, i + 1);
      if At(t, p) == ']' then Some((Array([]), p + 1))
      else
        var r := ParseItems(t, p);
        if r.None? then None else Some((Array(r.value.0), r.value.1))
    else if At(t, i) == '{' then
      var p := Skip(t, i + 1);
      if At(t, p) == '}' then Some((Object([]), p + 1))
      else
        var r := ParseMembers(t, p);
        if r.None? then None else Some((Object(r.value.0), r.value.1))
    else None
  }

  /** The elements of an array from the first on, through the closing bracket. */
  function ParseItems(t: string, i: nat): (r: Option<(seq<Json>, nat)>)
    requires i <= |t|
    ensures r.Some? ==> i < r.value.1 <= |t|
    decreases |t| - i, 1
  {
    var v := ParseValue(t, Skip(t, i));
    if v.None? then None
    else
      var p := Skip(t, v.value.1);
      if At(t, p) == ',' then
        var rest := ParseItems(t, p + 1);
        if rest.None? then None else Some(([v.value.0] + rest.value.0, rest.value.1))
      else if At(t, p) == ']' then Some(([v.value.0], p + 1))
      else None
  }

  /** One name, colon and value, and the blanks behind them. */
  function ParseMember(t: string, i: nat): (r: Option<(Member, nat)>)
    requires i <= |t|
    ensures r.Some? ==> i < r.value.1 <= |t|
    decreases |t| - i, 1
  {
    var name := ParseString(t, Skip(t, i));
    if name.None? then None
    else
      var p := Skip(t, name.value.1);
      if At(t, p) != ':' then None
      else
        var v := ParseValue(t, Skip(t, p + 1));
        if v.None? then None else Some((Member(name.value.0, v.value.0), Skip(t, v.value.1)))
  }

  function ParseMembers(t: string, i: nat): (r: Option<(seq<Member>, nat)>)
    requires i <= |t|
    ensures r.Some? ==> i < r.value.1 <= |t|
    decreases |t| - i, 2
  {
    var m := ParseMember(t, i);
    if m.None? then None
    else
      var p := m.value.1;
      if At(t, p) == ',' then
        var rest := ParseMembers(t, p + 1);
        if rest.None? then None else Some(([m.value.0] + rest.value.0, rest.value.1))
      else if At(t, p) == '}' then Some(([m.value.0], p + 1))
      else None
  }

  /** cJSON_Parse: what follows the value is not looked at. */
  function Parse(t: string): Option<Json> {
    var r := ParseValue(t, Skip(t, 0));
    if r.None? then None else Some(r.value.0)
  }

  // ----- the shape of printed numbers and members ------------------------------------------

  lemma {:induction false} NatTextHead(n: nat)
    ensures if n == 0 then NatText(n) == "0" else '1' <= NatText(n)[0] <= '9'
    ensures forall k :: 0 <= k < |NatText(n)| ==> IsDigit(NatText(n)[k])
  {
    if n >= 10 {
      NatTextHead(n / 10);
    }
  }

  lemma MemberText(ms: seq<Member>, depth: nat, fmt: bool)
    requires ms != [] && forall k :: 0 <= k < |ms| ==> NulFree(ms[k].name) && Printable(ms[k].value)
    ensures If(fmt, "\t") in {"", "\t"} && If(fmt, "\n") in {"", "\n"}
    ensures |PrintMembers(ms, depth, fmt)| == |If(fmt, Tabs(depth))| + |PrintMember(ms, depth, fmt)|
    ensures PrintMember(ms, depth, fmt) ==
      PrintString(ms[0].name) + (":" + (If(fmt, "\t") + (PrintValue(ms[0].value, depth, fmt) +
        (if |ms| == 1 then If(fmt, "\n") else "," + (If(fmt, "\n") + PrintMembers(ms[1..], depth, fmt))))))
  {
    if |ms| == 1 {
      assert If(false, ",") + (If(fmt, "\n") + "") == If(fmt, "\n");
    }
  }
}
