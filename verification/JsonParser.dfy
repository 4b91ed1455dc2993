/**
 The cJSON parser as it walks its text and fills its buffers (esl/esl_json.c). Each method
 computes the function of module Json that describes it, and every write of parse_string
 stays inside the buffer whose size the first scan of the literal fixed.
 */
module JsonParser {
  import opened Wrappers
  import opened Json
  import opened JsonRoundTrip
  import opened JsonPrinter

  method SkipBlanks(t: string, i: nat) returns (p: nat)
    requires i <= |t|
    ensures p == Skip(t, i)
  {
    p := i;
    while At(t, p) != NUL && At(t, p) as int <= 32
      invariant i <= p <= |t| && Skip(t, p) == Skip(t, i)
      decreases |t| - p
    {
      p := p + 1;
    }
  }

  // ----- parse_string -------------------------------------------------------------------------

  /** How often the first loop of parse_string counts from p on. */
  function ScanLen(t: string, p: nat): nat
    decreases |t| - p
  {
    if At(t, p) == '\"' || At(t, p) == NUL then 0
    else if At(t, p) == '\\' then 1 + ScanLen(t, p + 2)
    else 1 + ScanLen(t, p + 1)
  }

  lemma ScanHex4(t: string, p: nat)
    requires Hex4(t, p)
    ensures ScanLen(t, p) == 4 + ScanLen(t, p + 4)
  {
    assert ScanLen(t, p) == 1 + ScanLen(t, p + 1);
    assert ScanLen(t, p + 1) == 1 + ScanLen(t, p + 2);
    assert ScanLen(t, p + 2) == 1 + ScanLen(t, p + 3);
    assert ScanLen(t, p + 3) == 1 + ScanLen(t, p + 4);
  }

  /** What an escape stands for is never longer than what the first scan counted for it. */
  lemma EscapeFits(t: string, i: nat)
    requires i < |t| && t[i] == '\\'
    ensures
      var (s, next) := Unescape(t, i + 1);
      |s| + ScanLen(t, next) <= ScanLen(t, i)
    ensures At(t, i + 1) == NUL ==> ScanLen(t, i) >= 1 && Unescape(t, i + 1) == ("", i + 1)
  {
    assert ScanLen(t, i) == 1 + ScanLen(t, i + 2);
    if At(t, i + 1) == 'u' && Hex4(t, i + 2) {
      ScanHex4(t, i + 2);
      var uc := ScanUnicode(t, i + 2);
      if 0xD800 <= uc <= 0xDBFF && At(t, i + 6) == '\\' && At(t, i + 7) == 'u' && Hex4(t, i + 8) {
        assert ScanLen(t, i + 6) == 1 + ScanLen(t, i + 8);
        ScanHex4(t, i + 8);
      }
    }
  }

  /** The literal from i on is at most what the first scan counted. */
  lemma {:induction false} BodyFits(t: string, i: nat)
    requires i <= |t|
    ensures |StringBody(t, i).0| <= ScanLen(t, i)
    decreases |t| - i
  {
    hide Unescape;
    var c := At(t, i);
    if c == '\"' || c == NUL {
    } else if c != '\\' {
      BodyFits(t, i + 1);
    } else {
      EscapeFits(t, i);
      BodyFits(t, Unescape(t, i + 1).1);
    }
  }

  /** The first loop of parse_string. */
  method LiteralLength(t: string, i: nat) returns (len: nat)
    requires i <= |t|
    ensures len == ScanLen(t, i)
  {
    var ptr := i;
    len := 0;
    while At(t, ptr) != '\"' && At(t, ptr) != NUL
      invariant len + ScanLen(t, ptr) == ScanLen(t, i)
      decreases |t| - ptr
    {
      len := len + 1;
      ptr := if At(t, ptr) == '\\' then ptr + 2 else ptr + 1;
    }
  }

  /** The bytes of one code point, written from the last to the first. */
  method PutUtf8(out: array<char>, at: nat, code: nat) returns (next: nat)
    requires 0 < code < 0x20_0000 && at + |Utf8Chars(code)| <= out.Length
    modifies out
    ensures next == at + |Utf8Chars(code)| && out[..next] == old(out[..at]) + Utf8Chars(code)
  {
    var len, uc := 4, code;
    if uc < 0x80 { len := 1; } else if uc < 0x800 { len := 2; } else if uc < 0x10000 { len := 3; }
    next := at + len;
    if len == 4 {
      out[at + 3], uc := (0x80 + uc % 0x40) as char, uc / 0x40;
    }
    if len >= 3 {
      out[at + 2], uc := (0x80 + uc % 0x40) as char, uc / 0x40;
    }
    if len >= 2 {
      out[at + 1], uc := (0x80 + uc % 0x40) as char, uc / 0x40;
    }
    assert code / 0x40 / 0x40 == code / 0x1000 && code / 0x1000 / 0x40 == code / 0x40000;
    var mark := if len == 1 then 0 else if len == 2 then 0xC0 else if len == 3 then 0xE0 else 0xF0;
    out[at] := (mark + uc) as char;
  }

  /** The escapes of parse_string but for \u: the character written for c. */
  function Letter(c: char): char {
    if c == 'b' then BACKSPACE else if c == 'f' then FORM_FEED else if c == 'n' then '\n'
    else if c == 'r' then '\r' else if c == 't' then '\t' else c
  }

  /** The code of a \u escape, or 0 when nothing is written for it; ptr stands at the u. */
  method ReadCode(t: string, ptr: nat) returns (uc: nat, next: nat)
    requires ptr < |t| && t[ptr] == 'u'
    ensures uc < 0x20_0000 && Unescape(t, ptr) == (if uc == 0 then "" else Utf8Chars(uc), next)
  {
    hide Utf8Chars, ScanUnicode, JoinSurrogates, Hex4;
    if !Hex4(t, ptr + 1) {
      return 0, ptr + 1;
    }
    uc := ScanUnicode(t, ptr + 1);
    next := ptr + 5;
    if 0xDC00 <= uc <= 0xDFFF || uc == 0 {
      return 0, next;
    }
    if 0xD800 <= uc <= 0xDBFF {
      if At(t, ptr + 5) != '\\' || At(t, ptr + 6) != 'u' || !Hex4(t, ptr + 7) {
        return 0, next;
      }
      var uc2 := ScanUnicode(t, ptr + 7);
      next := ptr + 11;
      if uc2 < 0xDC00 || uc2 > 0xDFFF {
        return 0, next;
      }
      uc := JoinSurrogates(uc, uc2);
    }
  }

  lemma PlainEscape(t: string, i: nat)
    requires i <= |t| && At(t, i) != 'u'
    ensures At(t, i) == NUL ==> Unescape(t, i) == ("", i)
    ensures At(t, i) != NUL ==> Unescape(t, i) == ([Letter(At(t, i))], i + 1)
  {
  }

  /** What follows a backslash: ptr stands behind the backslash, at is where to write. */
  method PutUnescaped(t: string, ptr: nat, out: array<char>, at: nat) returns (next: nat, end: nat)
    requires 0 < ptr <= |t| && t[ptr - 1] == '\\' && at + ScanLen(t, ptr - 1) <= out.Length
    modifies out
    ensures next == Unescape(t, ptr).1
    ensures at + |Unescape(t, ptr).0| <= end && end + ScanLen(t, next) <= at + ScanLen(t, ptr - 1)
    ensures out[..at + |Unescape(t, ptr).0|] == old(out[..at]) + Unescape(t, ptr).0
    ensures At(t, ptr) == NUL ==> Unescape(t, ptr).0 == ""
    ensures if At(t, ptr) == NUL then next == ptr && end == at + 1 && out[at] == NUL else end == at + |Unescape(t, ptr).0|
  {
    EscapeFits(t, ptr - 1);
    EscapeCounts(t, ptr);
    AtInside(t, ptr);
    hide ScanLen, Unescape, Utf8Chars;
    if At(t, ptr) != 'u' {
      PlainEscape(t, ptr);
      Put(out, at, Letter(At(t, ptr)));
      return if At(t, ptr) == NUL then ptr else ptr + 1, at + 1;
    }
    var uc;
    uc, next := ReadCode(t, ptr);
    end := at;
    if uc != 0 {
      end := PutUtf8(out, at, uc);
    }
  }

  lemma EscapeCounts(t: string, ptr: nat)
    requires 0 < ptr <= |t| && t[ptr - 1] == '\\'
    ensures ScanLen(t, ptr - 1) == 1 + ScanLen(t, ptr + 1) && (At(t, ptr) == NUL ==> ScanLen(t, ptr) == 0)
  {
  }

  /** A literal read to its end: a NUL written for a backslash at the end of the text ends the string. */
  method ReadString(t: string, i: nat) returns (r: Option<(string, nat)>)
    requires i <= |t|
    ensures r == ParseString(t, i)
  {
    hide *;
    LiteralIs(t, i);
    if At(t, i) != '\"' {
      return None;
    }
    var len := LiteralLength(t, i + 1);
    var out := new char[len + 1];
    var ptr, ptr2 := i + 1, 0;
    ghost var s := "";
    ghost var full := StringBody(t, i + 1);
    while At(t, ptr) != '\"' && At(t, ptr) != NUL
      invariant i < ptr <= |t| && ptr2 + ScanLen(t, ptr) <= len
      invariant |s| <= ptr2 && out[..|s|] == s
      invariant full.0 == s + StringBody(t, ptr).0 && full.1 == StringBody(t, ptr).1
      invariant ptr2 != |s| ==> At(t, ptr) == NUL && out[|s|] == NUL
      decreases |t| - ptr
    {
      AtInside(t, ptr);
      BodyStep(t, ptr);
      if At(t, ptr) != '\\' {
        Put(out, ptr2, At(t, ptr));
        s := s + [At(t, ptr)];
        ptr, ptr2 := ptr + 1, ptr2 + 1;
      } else {
        ghost var piece := Unescape(t, ptr + 1);
        ptr, ptr2 := PutUnescaped(t, ptr + 1, out, ptr2);
        s := s + piece.0;
      }
    }
    BodyEnds(t, ptr);
    out[ptr2] := NUL;
    assert s + "" == s && out[..][..|s|] == out[..|s|];
    HoldsIntro(out[..], s);
    HoldsIsCStr(out, s);
    var text := Contents(out, s);
    r := Some((text, if At(t, ptr) == '\"' then ptr + 1 else ptr));
  }

  lemma LiteralIs(t: string, i: nat)
    requires i <= |t|
    ensures At(t, i) != '\"' ==> ParseString(t, i) == None
    ensures At(t, i) == '\"' ==>
      var (s, e) := StringBody(t, i + 1);
      s == "" + s && ParseString(t, i) == Some((s, if At(t, e) == '\"' then e + 1 else e))
    ensures NUL == '\0' && (At(t, i) != NUL ==> i < |t|)
  {
    hide StringBody;
  }

  lemma AtInside(t: string, i: nat)
    ensures NUL == '\0' && (At(t, i) != NUL ==> i < |t| && t[i] == At(t, i))
  {
  }

  lemma BodyEnds(t: string, i: nat)
    requires i <= |t| && (At(t, i) == '\"' || At(t, i) == NUL)
    ensures StringBody(t, i) == ("", i)
  {
  }

  lemma BodyStep(t: string, i: nat)
    requires i < |t| && At(t, i) != '\"' && At(t, i) != NUL
    ensures t[i] == At(t, i)
    ensures At(t, i) != '\\' ==>
      StringBody(t, i) == ([t[i]] + StringBody(t, i + 1).0, StringBody(t, i + 1).1) && ScanLen(t, i) == 1 + ScanLen(t, i + 1)
    ensures At(t, i) == '\\' ==>
      StringBody(t, i) == (Unescape(t, i + 1).0 + StringBody(t, Unescape(t, i + 1).1).0, StringBody(t, Unescape(t, i + 1).1).1)
  {
    hide Unescape;
  }

  /** The C string in a buffer. */
  method Contents(a: array<char>, ghost s: string) returns (text: string)
    requires CStr(a, s)
    ensures text == s
  {
    var n := StrLen(a, s);
    text := a[..n];
  }

  // ----- parse_number -----------------------------------------------------------------------

  method ReadDigits(t: string, i: nat, n: real) returns (m: real, p: nat)
    requires i <= |t|
    ensures (m, p) == Digits(t, i, n) && (IsDigit(At(t, i)) ==> p > i)
  {
    m, p := n, i;
    while IsDigit(At(t, p))
      invariant i <= p <= |t| && Digits(t, p, m) == Digits(t, i, n) && (p == i ==> m == n)
      decreases |t| - p
    {
      m, p := m * 10.0 + (At(t, p) as int - '0' as int) as real, p + 1;
    }
  }

  method ReadExponent(t: string, i: nat) returns (subscale: nat, p: nat)
    requires i <= |t|
    ensures (subscale, p) == Exponent(t, i, 0) && p >= i
  {
    subscale, p := 0, i;
    while IsDigit(At(t, p))
      invariant i <= p <= |t| && Exponent(t, p, subscale) == Exponent(t, i, 0)
      decreases |t| - p
    {
      subscale, p := subscale * 10 + (At(t, p) as int - '0' as int), p + 1;
    }
  }

  method ReadNumber(t: string, i: nat) returns (d: real, num: nat)
    requires i <= |t|
    ensures (d, num) == ParseNumber(t, i)
  {
    hide Digits, Exponent, Scaled;
    var n, sign, scale, subscale, signsubscale := 0.0, 1.0, 0, 0, 1;
    num := i;
    if At(t, num) == '-' {
      sign, num := -1.0, num + 1;
    }
    if At(t, num) == '0' {
      num := num + 1;
    }
    if '1' <= At(t, num) <= '9' {
      n, num := ReadDigits(t, num, 0.0);
    }
    if At(t, num) == '.' && IsDigit(At(t, num + 1)) {
      var from := num + 1;
      n, num := ReadDigits(t, from, n);
      scale := -(num - from);
    }
    ghost var q := num;
    if At(t, num) == 'e' || At(t, num) == 'E' {
      num := num + 1;
      if At(t, num) == '+' {
        num := num + 1;
      } else if At(t, num) == '-' {
        signsubscale, num := -1, num + 1;
      }
      subscale, num := ReadExponent(t, num);
    }
    assert q == num ==> scale + subscale * signsubscale == scale;
    d := Scaled(sign, n, scale + subscale * signsubscale);
  }

  // ----- parse_value, parse_array and parse_object ----------------------------------------------

  /** What the array loop still does at p, once an element and its blanks are read. */
  function MoreItems(t: string, p: nat): Option<(seq<Json>, nat)>
    requires p <= |t|
  {
    if At(t, p) == ',' then ParseItems(t, p + 1)
    else if At(t, p) == ']' then Some(([], p + 1))
    else None
  }

  function MoreMembers(t: string, p: nat): Option<(seq<Member>, nat)>
    requires p <= |t|
  {
    if At(t, p) == ',' then ParseMembers(t, p + 1)
    else if At(t, p) == '}' then Some(([], p + 1))
    else None
  }

  function Prepend<T>(head: seq<T>, r: Option<(seq<T>, nat)>): Option<(seq<T>, nat)>
  {
    if r.None? then None else Some((head + r.value.0, r.value.1))
  }

  lemma PrependTwice<T>(a: seq<T>, b: seq<T>, r: Option<(seq<T>, nat)>)
    ensures Prepend(a, Prepend(b, r)) == Prepend(a + b, r)
  {
    if r.Some? {
      assert a + (b + r.value.0) == (a + b) + r.value.0;
    }
  }

  lemma ItemsStep(t: string, i: nat)
    requires i <= |t|
    ensures
      var v := ParseValue(t, Skip(t, i));
      ParseItems(t, i) == if v.None? then None else Prepend([v.value.0], MoreItems(t, Skip(t, v.value.1)))
  {
    hide ParseValue;
    var v := ParseValue(t, Skip(t, i));
    assert v.Some? ==> [v.value.0] + [] == [v.value.0];
  }

  lemma MembersStep(t: string, i: nat)
    requires i <= |t|
    ensures
      var m := ParseMember(t, i);
      ParseMembers(t, i) == if m.None? then None else Prepend([m.value.0], MoreMembers(t, m.value.1))
  {
    hide ParseMember;
    var m := ParseMember(t, i);
    assert m.Some? ==> [m.value.0] + [] == [m.value.0];
  }

  lemma ValueCases(t: string, i: nat)
    requires i <= |t|
    ensures ParseValue(t, i) ==
      if HasAt(t, i, "null") then Some((Null, i + 4))
      else if HasAt(t, i, "false") then Some((False, i + 5))
      else if HasAt(t, i, "true") then Some((True, i + 4))
      else if At(t, i) == '\"' then
        var r := ParseString(t, i);
        if r.None? then None else Some((Str(r.value.0), r.value.1))
      else if At(t, i) == '-' || IsDigit(At(t, i)) then
        var (d, e) := ParseNumber(t, i);
        Some((Number(d), e))
      else if At(t, i) == '[' then ArrayAt(t, i)
      else if At(t, i) == '{' then ObjectAt(t, i)
      else None
  {
    hide ParseString, ParseNumber, ParseItems, ParseMembers, HasAt, Skip;
  }

  function ArrayAt(t: string, i: nat): Option<(Json, nat)>
    requires i < |t|
  {
    var p := Skip(t, i + 1);
    if At(t, p) == ']' then Some((Array([]), p + 1))
    else
      var r := ParseItems(t, p);
      if r.None? then None else Some((Array(r.value.0), r.value.1))
  }

  function ObjectAt(t: string, i: nat): Option<(Json, nat)>
    requires i < |t|
  {
    var p := Skip(t, i + 1);
    if At(t, p) == '}' then Some((Object([]), p + 1))
    else
      var r := ParseMembers(t, p);
      if r.None? then None else Some((Object(r.value.0), r.value.1))
  }

  method ReadValue(t: string, i: nat) returns (r: Option<(Json, nat)>)
    requires i <= |t|
    ensures r == ParseValue(t, i)
    decreases |t| - i, 1
  {
    hide *;
    ValueCases(t, i);
    if HasAt(t, i, "null") {
      return Some((Null, i + 4));
    }
    if HasAt(t, i, "false") {
      return Some((False, i + 5));
    }
    if HasAt(t, i, "true") {
      return Some((True, i + 4));
    }
    if At(t, i) == '\"' {
      var s := ReadString(t, i);
      return if s.None? then None else Some((Str(s.value.0), s.value.1));
    }
    if At(t, i) == '-' || IsDigit(At(t, i)) {
      var d, e := ReadNumber(t, i);
      return Some((Number(d), e));
    }
    AtInside(t, i);
    if At(t, i) == '[' {
      r := ReadArray(t, i);
    } else if At(t, i) == '{' {
      r := ReadObject(t, i);
    } else {
      r := None;
    }
  }

  method ReadArray(t: string, i: nat) returns (r: Option<(Json, nat)>)
    requires i < |t|
    ensures r == ArrayAt(t, i)
    decreases |t| - i, 0
  {
    hide ParseItems, ParseValue, Skip;
    var value := SkipBlanks(t, i + 1);
    if At(t, value) == ']' {
      return Some((Array([]), value + 1));
    }
    ghost var from := value;
    ItemsStep(t, value);
    value := SkipBlanks(t, value);
    var child := ReadValue(t, value);
    if child.None? {
      return None;
    }
    var items := [child.value.0];
    value := SkipBlanks(t, child.value.1);
    while At(t, value) == ','
      invariant i < value <= |t| && ParseItems(t, from) == Prepend(items, MoreItems(t, value))
      decreases |t| - value
    {
      ItemsStep(t, value + 1);
      value := SkipBlanks(t, value + 1);
      child := ReadValue(t, value);
      if child.None? {
        return None;
      }
      value := SkipBlanks(t, child.value.1);
      PrependTwice(items, [child.value.0], MoreItems(t, value));
      items := items + [child.value.0];
    }
    assert items + [] == items;
    r := if At(t, value) == ']' then Some((Array(items), value + 1)) else None;
  }

  /** A name, a colon and a value. */
  method ReadMember(t: string, i: nat) returns (m: Option<(Member, nat)>)
    requires i <= |t|
    ensures m == ParseMember(t, i)
    decreases |t| - i, 2
  {
    hide ParseString, ParseValue, Skip;
    var value := SkipBlanks(t, i);
    var name := ReadString(t, value);
    if name.None? {
      return None;
    }
    value := SkipBlanks(t, name.value.1);
    if At(t, value) != ':' {
      return None;
    }
    value := SkipBlanks(t, value + 1);
    var child := ReadValue(t, value);
    if child.None? {
      return None;
    }
    value := SkipBlanks(t, child.value.1);
    m := Some((Member(name.value.0, child.value.0), value));
  }

  method ReadObject(t: string, i: nat) returns (r: Option<(Json, nat)>)
    requires i < |t|
    ensures r == ObjectAt(t, i)
    decreases |t| - i, 0
  {
    hide ParseMembers, ParseMember, Skip;
    var value := SkipBlanks(t, i + 1);
    if At(t, value) == '}' {
      return Some((Object([]), value + 1));
    }
    ghost var from := value;
    MembersStep(t, value);
    var child := ReadMember(t, value);
    if child.None? {
      return None;
    }
    var members := [child.value.0];
    value := child.value.1;
    while At(t, value) == ','
      invariant i < value <= |t| && ParseMembers(t, from) == Prepend(members, MoreMembers(t, value))
      decreases |t| - value
    {
      MembersStep(t, value + 1);
      child := ReadMember(t, value + 1);
      if child.None? {
        return None;
      }
      value := child.value.1;
      PrependTwice(members, [child.value.0], MoreMembers(t, value));
      members := members + [child.value.0];
    }
    assert members + [] == members;
    r := if At(t, value) == '}' then Some((Object(members), value + 1)) else None;
  }

  /** cJSON_Parse */
  method Read(t: string) returns (j: Option<Json>)
    ensures j == Parse(t)
  {
    var value := SkipBlanks(t, 0);
    var r := ReadValue(t, value);
    j := if r.None? then None else Some(r.value.0);
  }

  /** cJSON_Print or cJSON_PrintUnformatted, and cJSON_Parse on the buffer that it fills. */
  method PrintAndRead(j: Json, fmt: bool) returns (back: Option<Json>)
    requires Printable(j)
    ensures back == Some(j)
  {
    var out := PrintJson(j, 0, fmt);
    var text := Contents(out, PrintValue(j, 0, fmt));
    RoundTrip(j, fmt);
    back := Read(text);
  }
}
