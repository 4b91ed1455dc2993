/**
 The cJSON printers as they fill their buffers (esl/esl_json.c). Every write, the NULs of
 strcpy and sprintf included, is shown to stay inside the size computed beforehand.
 */
module JsonPrinter {
  import opened Bytes
  import opened Json

  /** A buffer that holds the C string s. */
  ghost predicate CStr(a: array<char>, s: string)
    reads a
  {
    |s| < a.Length && a[..|s|] == s && a[|s|] == NUL && NulFree(s)
  }

  lemma EndOfCStr(a: array<char>, s: string, n: nat)
    requires CStr(a, s) && n <= |s|
    ensures a[n] == NUL <==> n == |s|
    ensures n < |s| ==> a[n] == s[n]
  {
    if n < |s| {
      assert a[..|s|][n] == s[n];
    }
  }

  /** The characters of a buffer begin with s and a NUL. */
  predicate Holds(chars: seq<char>, s: string) { |s| < |chars| && chars[..|s|] == s && chars[|s|] == NUL }

  lemma HoldsIsCStr(out: array<char>, s: string)
    requires Holds(out[..], s) && NulFree(s)
    ensures CStr(out, s)
  {
    assert out[..][..|s|] == out[..|s|];
  }

  lemma HoldsIntro(chars: seq<char>, s: string)
    requires |s| < |chars| && chars[..|s|] == s && chars[|s|] == NUL
    ensures Holds(chars, s)
  {
  }

  method StrLen(a: array<char>, ghost s: string) returns (n: nat)
    requires CStr(a, s)
    ensures n == |s|
  {
    n := 0;
    EndOfCStr(a, s, n);
    while a[n] != NUL
      invariant n <= |s| && (a[n] == NUL <==> n == |s|)
      decreases |s| - n
    {
      n := n + 1;
      EndOfCStr(a, s, n);
    }
  }

  /** *ptr = c, for a ptr that is then advanced */
  method Put(dst: array<char>, at: nat, c: char)
    requires at < dst.Length
    modifies dst
    ensures dst[..at + 1] == old(dst[..at]) + [c]
  {
    dst[at] := c;
  }

  /** sprintf or memcpy of a text and its NUL */
  method PutText(dst: array<char>, at: nat, s: string)
    requires at + |s| < dst.Length
    modifies dst
    ensures dst[..at + |s|] == old(dst[..at]) + s && dst[at + |s|] == NUL
  {
    var k := 0;
    while k < |s|
      invariant k <= |s| && dst[..at + k] == old(dst[..at]) + s[..k]
    {
      dst[at + k] := s[k];
      k := k + 1;
    }
    assert s[..k] == s;
    dst[at + k] := NUL;
  }

  /** strcpy(dst + at, src) */
  method StrCpy(dst: array<char>, at: nat, src: array<char>, ghost s: string)
    requires CStr(src, s) && src != dst && at + |s| < dst.Length
    modifies dst
    ensures dst[..at + |s|] == old(dst[..at]) + s && dst[at + |s|] == NUL
  {
    var k := 0;
    EndOfCStr(src, s, k);
    while src[k] != NUL
      invariant k <= |s| && dst[..at + k] == old(dst[..at]) + s[..k]
      invariant (src[k] == NUL <==> k == |s|) && (k < |s| ==> src[k] == s[k])
      decreases |s| - k
    {
      dst[at + k] := src[k];
      k := k + 1;
      EndOfCStr(src, s, k);
    }
    assert s[..k] == s;
    dst[at + k] := NUL;
  }

  method StrDup(s: string) returns (out: array<char>)
    requires NulFree(s)
    ensures fresh(out) && CStr(out, s)
  {
    out := new char[|s| + 1];
    PutText(out, 0, s);
    assert out[..0] == [];
  }

  // ----- no printed text holds a NUL -----------------------------------------------------

  lemma NulFreeAppend(a: string, b: string)
    requires NulFree(a) && NulFree(b)
    ensures NulFree(a + b)
  {
  }

  lemma {:induction false} EscapeNulFree(s: string)
    requires NulFree(s)
    ensures NulFree(Escape(s)) && NulFree(PrintString(s))
  {
    if s != "" {
      assert NulFree(s[1..]);
      assert NulFree(EscapeChar(s[0]));
      EscapeNulFree(s[1..]);
      NulFreeAppend(EscapeChar(s[0]), Escape(s[1..]));
    }
    NulFreeAppend(Escape(s), "\"");
    NulFreeAppend("\"", Escape(s) + "\"");
  }

  lemma {:induction false} TabsNulFree(n: nat)
    ensures NulFree(Tabs(n)) && |Tabs(n)| == n
  {
    if n > 0 {
      TabsNulFree(n - 1);
    }
  }

  lemma IntNulFree(n: int)
    ensures NulFree(IntText(n))
  {
    NatTextHead(if n < 0 then -n else n);
  }

  lemma BlanksNulFree(fmt: bool, depth: nat)
    ensures NulFree(If(fmt, "\n")) && NulFree(If(fmt, "\t")) && NulFree(If(fmt, " ")) && NulFree(If(fmt, Tabs(depth)))
  {
    TabsNulFree(depth);
  }

  lemma LeafNulFree(j: Json, depth: nat, fmt: bool)
    requires Printable(j) && !j.Array? && !j.Object?
    ensures NulFree(PrintValue(j, depth, fmt))
  {
    if j.Number? {
      IntNulFree(j.d.Floor);
    } else if j.Str? {
      EscapeNulFree(j.s);
    }
  }

  lemma {:induction false} ValueNulFree(j: Json, depth: nat, fmt: bool)
    requires Printable(j)
    ensures NulFree(PrintValue(j, depth, fmt))
    decreases j, 2
  {
    match j
    case Array(items) =>
      var body := PrintItems(items, depth + 1, fmt);
      ItemsNulFree(items, depth + 1, fmt);
      NulFreeAppend(body, "]");
      NulFreeAppend("[", body + "]");
    case Object(ms) =>
      var body := PrintMembers(ms, depth + 1, fmt);
      MembersNulFree(ms, depth + 1, fmt);
      BlanksNulFree(fmt, depth);
      NulFreeAppend(If(fmt, Tabs(depth)), "}");
      NulFreeAppend(body, If(fmt, Tabs(depth)) + "}");
      NulFreeAppend(If(fmt, "\n"), body + (If(fmt, Tabs(depth)) + "}"));
      NulFreeAppend("{", If(fmt, "\n") + (body + (If(fmt, Tabs(depth)) + "}")));
    case _ => LeafNulFree(j, depth, fmt);
  }

  lemma {:induction false} ItemsNulFree(items: seq<Json>, depth: nat, fmt: bool)
    requires forall k :: 0 <= k < |items| ==> Printable(items[k])
    ensures NulFree(PrintItems(items, depth, fmt))
    decreases items, 0
  {
    if items != [] {
      ValueNulFree(items[0], depth, fmt);
      ItemsNulFree(items[1..], depth, fmt);
    }
  }

  lemma {:induction false} MembersNulFree(ms: seq<Member>, depth: nat, fmt: bool)
    requires forall k :: 0 <= k < |ms| ==> NulFree(ms[k].name) && Printable(ms[k].value)
    ensures NulFree(PrintMembers(ms, depth, fmt))
    decreases ms, 0
  {
    MembersText(ms, depth, fmt);
    if ms != [] {
      hide *;
      EscapeNulFree(ms[0].name);
      ValueNulFree(ms[0].value, depth, fmt);
      MembersNulFree(ms[1..], depth, fmt);
      BlanksNulFree(fmt, depth);
      MemberText(ms, depth, fmt);
      var name, v := PrintString(ms[0].name), PrintValue(ms[0].value, depth, fmt);
      var tab, line, rest := If(fmt, "\t"), If(fmt, "\n"), PrintMembers(ms[1..], depth, fmt);
      NulFreeAppend(line, rest);
      Comma(line + rest);
      var tail := if |ms| == 1 then line else "," + (line + rest);
      NulFreeAppend(v, tail);
      NulFreeAppend(tab, v + tail);
      Colon(tab + (v + tail));
      NulFreeAppend(name, ":" + (tab + (v + tail)));
      NulFreeAppend(If(fmt, Tabs(depth)), PrintMember(ms, depth, fmt));
    }
  }

  lemma MembersText(ms: seq<Member>, depth: nat, fmt: bool)
    requires forall k :: 0 <= k < |ms| ==> NulFree(ms[k].name) && Printable(ms[k].value)
    ensures PrintMembers(ms, depth, fmt) == if ms == [] then "" else If(fmt, Tabs(depth)) + PrintMember(ms, depth, fmt)
  {
  }

  lemma Comma(s: string)
    requires NulFree(s)
    ensures NulFree("," + s)
  {
  }

  lemma Colon(s: string)
    requires NulFree(s)
    ensures NulFree(":" + s)
  {
  }

  // ----- strings and numbers ----------------------------------------------------------------

  lemma {:induction false} EscapeAppend(a: string, b: string)
    ensures Escape(a + b) == Escape(a) + Escape(b)
  {
    if a == "" {
      assert a + b == b;
    } else {
      assert (a + b)[0] == a[0] && (a + b)[1..] == a[1..] + b;
      EscapeAppend(a[1..], b);
    }
  }

  lemma EscapeStep(s: string, i: nat)
    requires i < |s|
    ensures Escape(s[..i + 1]) == Escape(s[..i]) + EscapeChar(s[i])
    ensures |Escape(s)| >= |Escape(s[..i])| + |EscapeChar(s[i])|
  {
    assert s[..i + 1] == s[..i] + [s[i]] && s == s[..i + 1] + s[i + 1..];
    EscapeAppend(s[..i], [s[i]]);
    EscapeAppend(s[..i + 1], s[i + 1..]);
    assert [s[i]][1..] == "" && EscapeChar(s[i]) + "" == EscapeChar(s[i]);
  }

  lemma EscapeEnds(s: string)
    ensures Escape("") == "" && PrintString(s) == "\"" + (Escape(s) + "\"")
  {
    hide EscapeChar;
  }

  /** The first loop of print_string_ptr: the length of the escaped text. */
  method EscapedLength(str: string) returns (len: nat)
    requires NulFree(str)
    ensures len == |Escape(str)|
  {
    len := 0;
    var i := 0;
    while i < |str|
      invariant i <= |str| && len == |Escape(str[..i])|
    {
      EscapeStep(str, i);
      var token := str[i];
      len := len + 1;
      if token in {'\"', '\\', BACKSPACE, FORM_FEED, '\n', '\r', '\t'} {
        len := len + 1;
      } else if token as int < 32 {
        len := len + 5;
      }
      i := i + 1;
    }
    assert str[..i] == str;
  }

  /** The body of the second loop of print_string_ptr. */
  method PutEscaped(out: array<char>, at: nat, c: char) returns (next: nat)
    requires c != NUL && at + |EscapeChar(c)| < out.Length
    modifies out
    ensures next == at + |EscapeChar(c)| && out[..next] == old(out[..at]) + EscapeChar(c)
  {
    if c as int > 31 && c != '\"' && c != '\\' {
      Put(out, at, c);
      return at + 1;
    }
    Put(out, at, '\\');
    var letter :=
      if c == '\\' then '\\' else if c == '\"' then '\"' else if c == BACKSPACE then 'b'
      else if c == FORM_FEED then 'f' else if c == '\n' then 'n' else if c == '\r' then 'r'
      else if c == '\t' then 't' else 'u';
    if letter != 'u' {
      Put(out, at + 1, letter);
      return at + 2;
    }
    // sprintf also writes a NUL behind the six characters
    PutText(out, at + 1, "u00" + [HexDigit(c as nat / 16), HexDigit(c as nat % 16)]);
    next := at + 6;
  }

  method PrintStringPtr(str: string) returns (out: array<char>)
    requires NulFree(str)
    ensures fresh(out) && CStr(out, PrintString(str))
  {
    hide Escape, EscapeChar, PrintString, CStr, Holds;
    var len := EscapedLength(str);
    out := new char[len + 3];
    Put(out, 0, '\"');
    EscapeEnds(str);
    assert out[..1] == "\"";
    var ptr, i := 1, 0;
    while i < |str|
      invariant i <= |str| && ptr == 1 + |Escape(str[..i])| <= len + 1
      invariant out[..ptr] == "\"" + Escape(str[..i])
    {
      EscapeStep(str, i);
      ptr := PutEscaped(out, ptr, str[i]);
      i := i + 1;
    }
    assert str[..i] == str;
    Put(out, ptr, '\"');
    out[ptr + 1] := NUL;
    EscapeNulFree(str);
    Assoc("\"", Escape(str), "\"");
    assert out[..][..ptr + 1] == out[..ptr + 1];
    HoldsIntro(out[..], PrintString(str));
    HoldsIsCStr(out, PrintString(str));
  }

  lemma {:induction false} NatTextShort(n: nat, k: nat)
    requires n < Ten(k) && k > 0
    ensures |NatText(n)| <= k
    decreases k
  {
    if n >= 10 {
      NatTextShort(n / 10, k - 1);
    }
  }

  function Ten(k: nat): nat { if k == 0 then 1 else 10 * Ten(k - 1) }

  /** The int branch of print_number: %d into 21 characters. */
  method PrintNumber(d: real) returns (out: array<char>)
    requires IsInt(d)
    ensures fresh(out) && CStr(out, IntText(d.Floor))
  {
    out := new char[21];
    var n := d.Floor;
    assert Ten(10) == 10_000_000_000 by {
      assert Ten(5) == 100_000;
      assert Ten(8) == 1000 * Ten(5);
      assert Ten(10) == 100 * Ten(8);
    }
    NatTextShort(if n < 0 then -n else n, 10);
    IntNulFree(n);
    PutText(out, 0, IntText(n));
    assert out[..0] == [];
  }

  // ----- arrays and objects --------------------------------------------------------------------

  function Extra(fmt: bool, n: nat): nat { if fmt then n else 0 }

  /** What print_array adds to its size for the entries. */
  function ItemsNeed(items: seq<Json>, depth: nat, fmt: bool): nat
    requires forall k :: 0 <= k < |items| ==> Printable(items[k])
  {
    if items == [] then 0
    else
      ItemsNeed(items[..|items| - 1], depth, fmt) +
      |PrintValue(items[|items| - 1], depth, fmt)| + 2 + Extra(fmt, 1)
  }

  lemma ItemsNeedSnoc(items: seq<Json>, i: nat, depth: nat, fmt: bool)
    requires i <= |items| && forall k :: 0 <= k < |items| ==> Printable(items[k])
    ensures ItemsNeed([], depth, fmt) == 0
    ensures i < |items| ==>
      ItemsNeed(items[..i + 1], depth, fmt) ==
      ItemsNeed(items[..i], depth, fmt) + |PrintValue(items[i], depth, fmt)| + 2 + if fmt then 1 else 0
  {
    hide PrintValue;
    if i < |items| {
      assert items[..i + 1][..i] == items[..i];
    }
  }

  lemma {:induction false} ItemsNeedCons(items: seq<Json>, depth: nat, fmt: bool)
    requires items != [] && forall k :: 0 <= k < |items| ==> Printable(items[k])
    ensures ItemsNeed(items, depth, fmt) ==
      |PrintValue(items[0], depth, fmt)| + 2 + Extra(fmt, 1) + ItemsNeed(items[1..], depth, fmt)
  {
    hide PrintValue;
    if |items| > 1 {
      var n := |items| - 1;
      ItemsNeedCons(items[..n], depth, fmt);
      assert items[..n][1..] == items[1..][..n - 1];
      assert items[1..][n - 1] == items[n] && items[..n][0] == items[0];
    }
  }

  lemma ItemsUnfold(items: seq<Json>, depth: nat, fmt: bool)
    requires items != [] && forall k :: 0 <= k < |items| ==> Printable(items[k])
    ensures PrintItems(items, depth, fmt) ==
      PrintValue(items[0], depth, fmt) + (Gap(items, fmt) + PrintItems(items[1..], depth, fmt))
    ensures |Gap(items, fmt)| <= 1 + Extra(fmt, 1)
  {
    hide PrintValue;
    if |items| > 1 {
      Assoc(",", If(fmt, " "), PrintItems(items[1..], depth, fmt));
    }
  }

  lemma {:induction false} ItemsFit(items: seq<Json>, depth: nat, fmt: bool)
    requires forall k :: 0 <= k < |items| ==> Printable(items[k])
    ensures |PrintItems(items, depth, fmt)| <= ItemsNeed(items, depth, fmt)
  {
    hide PrintValue;
    if items != [] {
      ItemsUnfold(items, depth, fmt);
      ItemsNeedCons(items, depth, fmt);
      ItemsFit(items[1..], depth, fmt);
    }
  }

  /** What print_object adds to its size for the entries. */
  function MembersNeed(ms: seq<Member>, depth: nat, fmt: bool): nat
    requires forall k :: 0 <= k < |ms| ==> NulFree(ms[k].name) && Printable(ms[k].value)
  {
    if ms == [] then 0
    else
      var m := ms[|ms| - 1];
      MembersNeed(ms[..|ms| - 1], depth, fmt) +
      |PrintValue(m.value, depth, fmt)| + |PrintString(m.name)| + 2 + Extra(fmt, 2 + depth)
  }

  lemma MembersNeedSnoc(ms: seq<Member>, i: nat, depth: nat, fmt: bool)
    requires i <= |ms| && forall k :: 0 <= k < |ms| ==> NulFree(ms[k].name) && Printable(ms[k].value)
    ensures MembersNeed([], depth, fmt) == 0
    ensures i < |ms| ==>
      MembersNeed(ms[..i + 1], depth, fmt) ==
      MembersNeed(ms[..i], depth, fmt) + |PrintValue(ms[i].value, depth, fmt)| + |PrintString(ms[i].name)| + 2 +
      if fmt then 2 + depth else 0
  {
    hide PrintValue, PrintString;
    if i < |ms| {
      assert ms[..i + 1][..i] == ms[..i];
    }
  }

  lemma {:induction false} MembersNeedCons(ms: seq<Member>, depth: nat, fmt: bool)
    requires ms != [] && forall k :: 0 <= k < |ms| ==> NulFree(ms[k].name) && Printable(ms[k].value)
    ensures MembersNeed(ms, depth, fmt) ==
      |PrintValue(ms[0].value, depth, fmt)| + |PrintString(ms[0].name)| + 2 + Extra(fmt, 2 + depth) +
      MembersNeed(ms[1..], depth, fmt)
  {
    hide PrintValue;
    hide PrintString;
    if |ms| > 1 {
      var n := |ms| - 1;
      MembersNeedCons(ms[..n], depth, fmt);
      assert ms[..n][1..] == ms[1..][..n - 1];
      assert ms[1..][n - 1] == ms[n] && ms[..n][0] == ms[0];
    }
  }

  lemma MembersUnfold(ms: seq<Member>, depth: nat, fmt: bool)
    requires ms != [] && forall k :: 0 <= k < |ms| ==> NulFree(ms[k].name) && Printable(ms[k].value)
    ensures PrintMembers(ms, depth, fmt) ==
      If(fmt, Tabs(depth)) + (PrintString(ms[0].name) + (":" + (If(fmt, "\t") + (PrintValue(ms[0].value, depth, fmt) +
        (If(|ms| > 1, ",") + (If(fmt, "\n") + PrintMembers(ms[1..], depth, fmt)))))))
    ensures |If(fmt, Tabs(depth))| == Extra(fmt, depth) && |If(fmt, "\t")| == |If(fmt, "\n")| == Extra(fmt, 1)
  {
    TabsNulFree(depth);
  }

  lemma {:induction false} MembersFit(ms: seq<Member>, depth: nat, fmt: bool)
    requires forall k :: 0 <= k < |ms| ==> NulFree(ms[k].name) && Printable(ms[k].value)
    ensures |PrintMembers(ms, depth, fmt)| <= MembersNeed(ms, depth, fmt)
  {
    hide PrintValue;
    hide PrintString;
    if ms != [] {
      MembersUnfold(ms, depth, fmt);
      MembersNeedCons(ms, depth, fmt);
      MembersFit(ms[1..], depth, fmt);
    }
  }

  /** Each buffer holds the text of the element in its place. */
  ghost predicate HoldItems(bufs: seq<array<char>>, items: seq<Json>, depth: nat, fmt: bool)
    requires forall k :: 0 <= k < |items| ==> Printable(items[k])
    reads set b | b in bufs
  {
    |bufs| == |items| && forall k :: 0 <= k < |items| ==> CStr(bufs[k], PrintValue(items[k], depth, fmt))
  }

  lemma HoldItemsSnoc(bufs: seq<array<char>>, items: seq<Json>, i: nat, b: array<char>, depth: nat, fmt: bool)
    requires i < |items| && forall k :: 0 <= k < |items| ==> Printable(items[k])
    requires HoldItems(bufs, items[..i], depth, fmt) && CStr(b, PrintValue(items[i], depth, fmt))
    ensures HoldItems(bufs + [b], items[..i + 1], depth, fmt)
  {
    hide CStr, PrintValue, Printable;
  }

  /** Each buffer holds the printed name of the member in its place. */
  ghost predicate HoldNames(bufs: seq<array<char>>, ms: seq<Member>)
    reads set b | b in bufs
  {
    |bufs| == |ms| && forall k :: 0 <= k < |ms| ==> CStr(bufs[k], PrintString(ms[k].name))
  }

  lemma HoldNamesSnoc(bufs: seq<array<char>>, ms: seq<Member>, i: nat, b: array<char>)
    requires i < |ms| && HoldNames(bufs, ms[..i]) && CStr(b, PrintString(ms[i].name))
    ensures HoldNames(bufs + [b], ms[..i + 1])
  {
    hide CStr, PrintString;
  }

  function Values(ms: seq<Member>): (items: seq<Json>)
    ensures |items| == |ms| && forall k :: 0 <= k < |ms| ==> items[k] == ms[k].value
  {
    seq(|ms|, k requires 0 <= k < |ms| => ms[k].value)
  }

  lemma HoldAt(names: seq<array<char>>, bufs: seq<array<char>>, ms: seq<Member>, i: nat, depth: nat, fmt: bool)
    requires i < |ms| && forall k :: 0 <= k < |ms| ==> NulFree(ms[k].name) && Printable(ms[k].value)
    requires HoldNames(names, ms) && HoldItems(bufs, Values(ms), depth, fmt)
    ensures |names| == |bufs| == |ms|
    ensures CStr(names[i], PrintString(ms[i].name)) && CStr(bufs[i], PrintValue(ms[i].value, depth, fmt))
  {
    hide CStr, PrintValue, Printable, NulFree, PrintString;
  }

  /** One entry of print_array and its separator, when it has one. */
  method PutItem(items: seq<Json>, depth: nat, fmt: bool, entry: array<char>, out: array<char>, at: nat)
    returns (ptr: nat)
    requires items != [] && forall k :: 0 <= k < |items| ==> Printable(items[k])
    requires CStr(entry, PrintValue(items[0], depth, fmt))
    requires entry != out && at + |PrintItems(items, depth, fmt)| < out.Length
    modifies out
    ensures ptr < out.Length
    ensures out[..ptr] + PrintItems(items[1..], depth, fmt) == old(out[..at]) + PrintItems(items, depth, fmt)
  {
    hide *;
    ghost var rest, v := PrintItems(items[1..], depth, fmt), PrintValue(items[0], depth, fmt);
    ghost var gap, before := Gap(items, fmt), out[..at];
    ItemsUnfold(items, depth, fmt);
    GapText(items, fmt);
    var n := StrLen(entry, v);
    StrCpy(out, at, entry, v);
    ptr := at + n;
    assert out[..ptr] == before + v;
    if |items| != 1 {
      Put(out, ptr, ',');
      ptr := ptr + 1;
      if fmt {
        Put(out, ptr, ' ');
        ptr := ptr + 1;
      }
      out[ptr] := NUL;
    }
    assert out[..ptr] == (before + v) + gap;
    Assoc(before + v, gap, rest);
    Assoc(before, v, gap + rest);
  }

  /** What stands between an element and the next. */
  function Gap(items: seq<Json>, fmt: bool): string
  {
    if |items| == 1 then "" else "," + If(fmt, " ")
  }

  lemma GapText(items: seq<Json>, fmt: bool)
    ensures Gap(items, fmt) == if |items| == 1 then "" else if fmt then ", " else ","
  {
  }

  lemma BlankText(fmt: bool)
    ensures If(fmt, " ") == if fmt then " " else ""
    ensures If(fmt, "\t") == if fmt then "\t" else ""
    ensures If(fmt, "\n") == if fmt then "\n" else ""
  {
  }

  /** The last part of print_array: the entries into one buffer of len characters. */
  method ComposeArray(items: seq<Json>, depth: nat, fmt: bool, entries: seq<array<char>>, len: nat)
    returns (out: array<char>)
    requires forall k :: 0 <= k < |items| ==> Printable(items[k])
    requires HoldItems(entries, items, depth, fmt)
    requires |PrintItems(items, depth, fmt)| + 3 <= len
    ensures fresh(out) && Holds(out[..], "[" + (PrintItems(items, depth, fmt) + "]"))
  {
    ghost var text := PrintItems(items, depth, fmt);
    assert PrintItems([], depth, fmt) == "";
    hide PrintValue, PrintItems, CStr, Printable;
    out := new char[len];
    Put(out, 0, '[');
    assert out[..1] == "[";
    var ptr: nat, i: nat := 1, 0;
    out[ptr] := NUL;
    assert items[0..] == items;
    while i < |items|
      invariant i <= |items| && ptr < out.Length
      invariant out[..ptr] + PrintItems(items[i..], depth, fmt) == "[" + text
    {
      ghost var rest := PrintItems(items[i..], depth, fmt);
      assert |out[..ptr] + rest| == 1 + |text|;
      assert items[i..][1..] == items[i + 1..] && items[i..][0] == items[i];
      ptr := PutItem(items[i..], depth, fmt, entries[i], out, ptr);
      i := i + 1;
    }
    assert items[i..] == [] && out[..ptr] == "[" + text;
    Put(out, ptr, ']');
    Assoc("[", text, "]");
    out[ptr + 1] := NUL;
    assert out[..][..ptr + 1] == out[..ptr + 1];
  }

  lemma {:induction false} TabsSnoc(n: nat)
    ensures Tabs(n + 1) == Tabs(n) + "\t"
  {
    if n > 0 {
      TabsSnoc(n - 1);
    }
  }

  method PutTabs(out: array<char>, at: nat, n: nat)
    requires at + n <= out.Length
    modifies out
    ensures out[..at + n] == old(out[..at]) + Tabs(n)
  {
    var k := 0;
    while k < n
      invariant k <= n && out[..at + k] == old(out[..at]) + Tabs(k)
    {
      TabsSnoc(k);
      out[at + k] := '\t';
      k := k + 1;
    }
  }

  /** The tabs, name and colon of one entry of print_object. */
  method PutName(name: array<char>, ghost n: string, depth: nat, fmt: bool, out: array<char>, at: nat) returns (ptr: nat)
    requires CStr(name, n) && name != out
    requires at + Extra(fmt, depth + 1) + |n| + 1 < out.Length
    modifies out
    ensures ptr == at + Extra(fmt, depth + 1) + |n| + 1
    ensures out[..ptr] == old(out[..at]) + (If(fmt, Tabs(depth)) + (n + (":" + If(fmt, "\t"))))
  {
    BlankText(fmt);
    TabsText(fmt, depth);
    hide Tabs, If, CStr;
    ghost var before := out[..at];
    ptr := at;
    if fmt {
      PutTabs(out, ptr, depth);
      ptr := ptr + depth;
    }
    ghost var tabs := If(fmt, Tabs(depth));
    assert out[..ptr] == before + tabs;
    var m := StrLen(name, n);
    StrCpy(out, ptr, name, n);
    ptr := ptr + m;
    Put(out, ptr, ':');
    ptr := ptr + 1;
    if fmt {
      Put(out, ptr, '\t');
      ptr := ptr + 1;
    }
    assert out[..ptr] == (((before + tabs) + n) + ":") + If(fmt, "\t");
    Assoc((before + tabs) + n, ":", If(fmt, "\t"));
    Assoc(before + tabs, n, ":" + If(fmt, "\t"));
    Assoc(before, tabs, n + (":" + If(fmt, "\t")));
  }

  lemma TabsText(fmt: bool, depth: nat)
    ensures If(fmt, Tabs(depth)) == if fmt then Tabs(depth) else ""
    ensures |If(fmt, Tabs(depth))| == Extra(fmt, depth)
  {
    TabsNulFree(depth);
  }

  /** The value, comma and line end of one entry of print_object. */
  method PutEntry(entry: array<char>, ghost v: string, more: bool, fmt: bool, out: array<char>, at: nat) returns (ptr: nat)
    requires CStr(entry, v) && entry != out
    requires at + |v| + (if more then 1 else 0) + Extra(fmt, 1) < out.Length
    modifies out
    ensures ptr == at + |v| + (if more then 1 else 0) + Extra(fmt, 1)
    ensures out[..ptr] == old(out[..at]) + (v + (If(more, ",") + If(fmt, "\n")))
  {
    BlankText(fmt);
    assert If(more, ",") == if more then "," else "";
    hide If, CStr;
    ghost var before := out[..at];
    var n := StrLen(entry, v);
    StrCpy(out, at, entry, v);
    ptr := at + n;
    if more {
      Put(out, ptr, ',');
      ptr := ptr + 1;
    }
    assert out[..ptr] == (before + v) + If(more, ",");
    if fmt {
      Put(out, ptr, '\n');
      ptr := ptr + 1;
    }
    out[ptr] := NUL;
    assert out[..ptr] == ((before + v) + If(more, ",")) + If(fmt, "\n");
    Assoc(before + v, If(more, ","), If(fmt, "\n"));
    Assoc(before, v, If(more, ",") + If(fmt, "\n"));
  }

  lemma Regroup(before: string, tabs: string, n: string, tab: string, v: string, comma: string, line: string, rest: string)
    ensures ((before + (tabs + (n + (":" + tab)))) + (v + (comma + line))) + rest ==
      before + (tabs + (n + (":" + (tab + (v + (comma + (line + rest)))))))
  {
    Assoc(before + (tabs + (n + (":" + tab))), v + (comma + line), rest);
    Assoc(v, comma + line, rest);
    Assoc(comma, line, rest);
    var x := v + (comma + (line + rest));
    Assoc(before, tabs + (n + (":" + tab)), x);
    Assoc(tabs, n + (":" + tab), x);
    Assoc(n, ":" + tab, x);
    Assoc(":", tab, x);
  }

  /** One entry of print_object. */
  method PutMember(ms: seq<Member>, depth: nat, fmt: bool, name: array<char>, entry: array<char>,
                   out: array<char>, at: nat) returns (ptr: nat)
    requires ms != [] && forall k :: 0 <= k < |ms| ==> NulFree(ms[k].name) && Printable(ms[k].value)
    requires CStr(name, PrintString(ms[0].name)) && CStr(entry, PrintValue(ms[0].value, depth, fmt))
    requires name != out && entry != out && at + |PrintMembers(ms, depth, fmt)| < out.Length
    modifies out
    ensures ptr < out.Length
    ensures out[..ptr] + PrintMembers(ms[1..], depth, fmt) == old(out[..at]) + PrintMembers(ms, depth, fmt)
  {
    MembersUnfold(ms, depth, fmt);
    hide PrintValue, PrintMembers, PrintString, Tabs, NulFree, Printable;
    ghost var before := out[..at];
    ghost var n, v := PrintString(ms[0].name), PrintValue(ms[0].value, depth, fmt);
    ghost var rest := PrintMembers(ms[1..], depth, fmt);
    ghost var tabs, tab := If(fmt, Tabs(depth)), If(fmt, "\t");
    ghost var comma, line := If(|ms| > 1, ","), If(fmt, "\n");
    assert |comma| == if |ms| > 1 then 1 else 0;
    hide If, CStr;
    ptr := PutName(name, n, depth, fmt, out, at);
    assert CStr(entry, v);
    ptr := PutEntry(entry, v, |ms| > 1, fmt, out, ptr);
    Regroup(before, tabs, n, tab, v, comma, line, rest);
  }

  /** The entries of print_object, one after the other. */
  method PutMembers(ms: seq<Member>, depth: nat, fmt: bool, names: seq<array<char>>, entries: seq<array<char>>,
                    out: array<char>, at: nat) returns (ptr: nat)
    requires forall k :: 0 <= k < |ms| ==> NulFree(ms[k].name) && Printable(ms[k].value)
    requires HoldNames(names, ms) && HoldItems(entries, Values(ms), depth, fmt) && out !in names + entries
    requires at + |PrintMembers(ms, depth, fmt)| < out.Length
    modifies out
    ensures ptr < out.Length && out[..ptr] == old(out[..at]) + PrintMembers(ms, depth, fmt)
  {
    hide *;
    ghost var text, before := PrintMembers(ms, depth, fmt), out[..at];
    NoMembers(depth, fmt);
    var i := 0;
    ptr := at;
    assert ms[0..] == ms;
    while i < |ms|
      invariant i <= |ms| && ptr < out.Length
      invariant HoldNames(names, ms) && HoldItems(entries, Values(ms), depth, fmt)
      invariant out[..ptr] + PrintMembers(ms[i..], depth, fmt) == before + text
    {
      assert |out[..ptr] + PrintMembers(ms[i..], depth, fmt)| == |before| + |text|;
      assert ms[i..][1..] == ms[i + 1..] && ms[i..][0] == ms[i];
      HoldAt(names, entries, ms, i, depth, fmt);
      ptr := PutMember(ms[i..], depth, fmt, names[i], entries[i], out, ptr);
      i := i + 1;
    }
    assert ms[i..] == [] && out[..ptr] == before + text;
  }

  lemma NoMembers(depth: nat, fmt: bool)
    ensures PrintMembers([], depth, fmt) == ""
  {
  }

  /** The last part of print_object: names and entries into one buffer of len characters. */
  method ComposeObject(ms: seq<Member>, depth: nat, fmt: bool, names: seq<array<char>>, entries: seq<array<char>>, len: nat)
    returns (out: array<char>)
    requires forall k :: 0 <= k < |ms| ==> NulFree(ms[k].name) && Printable(ms[k].value)
    requires HoldNames(names, ms) && HoldItems(entries, Values(ms), depth + 1, fmt)
    requires |PrintMembers(ms, depth + 1, fmt)| + 7 + Extra(fmt, depth + 1) <= len
    ensures fresh(out) && Holds(out[..], PrintValue(Object(ms), depth, fmt))
  {
    hide *;
    ghost var text := PrintMembers(ms, depth + 1, fmt);
    ghost var tabs, line := If(fmt, Tabs(depth)), If(fmt, "\n");
    ObjectText(ms, depth, fmt);
    BlankText(fmt);
    ExtraMore(fmt, depth);
    out := new char[len];
    Put(out, 0, '{');
    assert out[..1] == "{";
    var ptr := 1;
    if fmt {
      Put(out, 1, '\n');
      ptr := 2;
    }
    out[ptr] := NUL;
    assert out[..ptr] == "{" + line;
    ptr := PutMembers(ms, depth + 1, fmt, names, entries, out, ptr);
    Close(out, ptr, depth, fmt);
    Assoc("{" + line, text, tabs + "}");
    Assoc("{", line, text + (tabs + "}"));
  }

  lemma ExtraMore(fmt: bool, n: nat)
    ensures Extra(fmt, n) <= Extra(fmt, n + 1)
  {
  }

  /** The tabs and the bracket that end print_object. */
  method Close(out: array<char>, at: nat, depth: nat, fmt: bool)
    requires at + Extra(fmt, depth) + 1 < out.Length
    modifies out
    ensures Holds(out[..], old(out[..at]) + (If(fmt, Tabs(depth)) + "}"))
  {
    ghost var before, tabs := out[..at], If(fmt, Tabs(depth));
    TabsText(fmt, depth);
    hide If, Tabs;
    var ptr := at;
    if fmt {
      PutTabs(out, ptr, depth);
      ptr := ptr + depth;
    }
    Put(out, ptr, '}');
    ptr := ptr + 1;
    Assoc(before, tabs, "}");
    assert out[..ptr] == before + (tabs + "}");
    out[ptr] := NUL;
    assert out[..][..ptr] == out[..ptr];
  }

  lemma HoldsCStr(out: array<char>, j: Json, depth: nat, fmt: bool)
    requires Printable(j) && Holds(out[..], PrintValue(j, depth, fmt))
    ensures CStr(out, PrintValue(j, depth, fmt))
  {
    ValueNulFree(j, depth, fmt);
    hide *;
    hide Printable;
    HoldsIsCStr(out, PrintValue(j, depth, fmt));
  }

  // ----- print_value, print_array and print_object ---------------------------------------------

  method PrintJson(j: Json, depth: nat, fmt: bool) returns (out: array<char>)
    requires Printable(j)
    ensures fresh(out) && CStr(out, PrintValue(j, depth, fmt))
    decreases j, 2
  {
    match j {
      case Null => out := StrDup("null");
      case False => out := StrDup("false");
      case True => out := StrDup("true");
      case Number(d) => out := PrintNumber(d);
      case Str(s) => out := PrintStringPtr(s);
      case Array(items) => out := PrintArray(items, depth, fmt);
      case Object(ms) => out := PrintObject(ms, depth, fmt);
    }
  }

  /** The first loop of print_array: every element printed, and the size of the whole. */
  method PrintItemsApart(items: seq<Json>, depth: nat, fmt: bool) returns (entries: seq<array<char>>, len: nat)
    requires forall k :: 0 <= k < |items| ==> Printable(items[k])
    ensures HoldItems(entries, items, depth, fmt) && len == 5 + ItemsNeed(items, depth, fmt)
    decreases items, 0
  {
    entries, len := [], 5;
    var i := 0;
    ItemsNeedSnoc(items, 0, depth, fmt);
    assert HoldItems([], [], depth, fmt);
    hide *;
    while i < |items|
      invariant i <= |items| && HoldItems(entries, items[..i], depth, fmt)
      invariant len == 5 + ItemsNeed(items[..i], depth, fmt)
    {
      var ret := PrintJson(items[i], depth, fmt);
      var n := StrLen(ret, PrintValue(items[i], depth, fmt));
      ItemsNeedSnoc(items, i, depth, fmt);
      HoldItemsSnoc(entries, items, i, ret, depth, fmt);
      entries := entries + [ret];
      len := len + n + 2 + (if fmt then 1 else 0);
      i := i + 1;
    }
    assert items[..i] == items;
  }

  method PrintArray(items: seq<Json>, depth: nat, fmt: bool) returns (out: array<char>)
    requires forall k :: 0 <= k < |items| ==> Printable(items[k])
    ensures fresh(out) && CStr(out, PrintValue(Array(items), depth, fmt))
    decreases items, 1
  {
    ArrayText(items, depth, fmt);
    ItemsFit(items, depth + 1, fmt);
    hide *;
    var entries, len := PrintItemsApart(items, depth + 1, fmt);
    out := ComposeArray(items, depth + 1, fmt, entries, len);
    HoldsCStr(out, Array(items), depth, fmt);
  }

  lemma HoldNone(depth: nat, fmt: bool)
    ensures HoldNames([], []) && HoldItems([], [], depth, fmt)
    ensures MembersNeed([], depth, fmt) == 0 && Extra(fmt, depth) == if fmt then depth else 0
  {
  }

  /** The first loop of print_object, which has increased depth by one. */
  method PrintMembersApart(ms: seq<Member>, depth: nat, fmt: bool)
    returns (names: seq<array<char>>, entries: seq<array<char>>, len: nat)
    requires forall k :: 0 <= k < |ms| ==> NulFree(ms[k].name) && Printable(ms[k].value)
    ensures HoldNames(names, ms) && HoldItems(entries, Values(ms), depth, fmt)
    ensures len == 7 + Extra(fmt, depth) + MembersNeed(ms, depth, fmt)
    decreases ms, 0
  {
    hide *;
    names, entries, len := [], [], 7 + (if fmt then depth else 0);
    var i := 0;
    ghost var values := Values(ms);
    HoldNone(depth, fmt);
    while i < |ms|
      invariant i <= |ms| && HoldNames(names, ms[..i]) && HoldItems(entries, values[..i], depth, fmt)
      invariant len == 7 + Extra(fmt, depth) + MembersNeed(ms[..i], depth, fmt)
    {
      var str := PrintStringPtr(ms[i].name);
      var ret := PrintJson(ms[i].value, depth, fmt);
      var n := StrLen(ret, PrintValue(ms[i].value, depth, fmt));
      var m := StrLen(str, PrintString(ms[i].name));
      MembersNeedSnoc(ms, i, depth, fmt);
      HoldNamesSnoc(names, ms, i, str);
      HoldItemsSnoc(entries, values, i, ret, depth, fmt);
      names, entries := names + [str], entries + [ret];
      len := len + n + m + 2 + (if fmt then 2 + depth else 0);
      i := i + 1;
    }
    assert ms[..i] == ms && values[..i] == values;
  }

  method PrintObject(ms: seq<Member>, depth: nat, fmt: bool) returns (out: array<char>)
    requires forall k :: 0 <= k < |ms| ==> NulFree(ms[k].name) && Printable(ms[k].value)
    ensures fresh(out) && CStr(out, PrintValue(Object(ms), depth, fmt))
    decreases ms, 1
  {
    ObjectText(ms, depth, fmt);
    MembersFit(ms, depth + 1, fmt);
    hide *;
    var names, entries, len := PrintMembersApart(ms, depth + 1, fmt);
    out := ComposeObject(ms, depth, fmt, names, entries, len);
    HoldsCStr(out, Object(ms), depth, fmt);
  }

  lemma ObjectText(ms: seq<Member>, depth: nat, fmt: bool)
    requires forall k :: 0 <= k < |ms| ==> NulFree(ms[k].name) && Printable(ms[k].value)
    ensures Printable(Object(ms))
    ensures PrintValue(Object(ms), depth, fmt) ==
      "{" + (If(fmt, "\n") + (PrintMembers(ms, depth + 1, fmt) + (If(fmt, Tabs(depth)) + "}")))
  {
  }

  lemma ArrayText(items: seq<Json>, depth: nat, fmt: bool)
    requires forall k :: 0 <= k < |items| ==> Printable(items[k])
    ensures Printable(Array(items))
    ensures PrintValue(Array(items), depth, fmt) == "[" + (PrintItems(items, depth + 1, fmt) + "]")
  {
  }
}
