/** Parsing what was printed gives the tree back (esl/esl_json.c). */
module JsonRoundTrip {
  import opened Wrappers
  import opened Json
  import JsonUnicode

  lemma {:induction false} Split(t: string, i: nat, a: string, b: string)
    requires HasAt(t, i, a + b)
    ensures HasAt(t, i, a) && HasAt(t, i + |a|, b)
    decreases |a|
  {
    if a == "" {
      assert a + b == b;
    } else {
      assert (a + b)[0] == a[0] && (a + b)[1..] == a[1..] + b;
      Split(t, i + 1, a[1..], b);
    }
  }

  lemma HeadAt(t: string, i: nat, s: string)
    requires HasAt(t, i, s) && s != ""
    ensures i < |t| && At(t, i) == s[0]
  {
  }

  lemma {:induction false} InText(before: string, s: string, after: string)
    ensures HasAt(before + s + after, |before|, s)
    decreases |s|
  {
    if s != "" {
      assert before + s + after == (before + [s[0]]) + s[1..] + after;
      InText(before + [s[0]], s[1..], after);
    }
  }

  // ----- strings ---------------------------------------------------------------------

  lemma {:induction false} CharsAt(t: string, i: nat, s: string)
    requires HasAt(t, i, s)
    ensures forall k {:trigger s[k]} :: 0 <= k < |s| ==> At(t, i + k) == s[k]
    decreases |s|
  {
    if s != "" {
      CharsAt(t, i + 1, s[1..]);
      forall k | 0 <= k < |s| ensures At(t, i + k) == s[k] {
        if k > 0 {
          assert s[1..][k - 1] == s[k];
        }
      }
    }
  }

  lemma EscapeCharBack(c: char, t: string, i: nat)
    requires c != NUL && HasAt(t, i, EscapeChar(c))
    ensures var e := EscapeChar(c); var (rest, q) := StringBody(t, i + |e|);
            StringBody(t, i) == ([c] + rest, q)
  {
    var e := EscapeChar(c);
    CharsAt(t, i, e);
    if !(c as int > 31 && c != '\"' && c != '\\') {
      assert At(t, i) == '\\';
      assert At(t, i + 1) == e[1];
      if |e| == 6 {
        assert e[2] == '0' && e[3] == '0';
        assert e[4] == HexDigit(c as nat / 16) && e[5] == HexDigit(c as nat % 16);
        HexBack(c, t, i);
      }
      assert Unescape(t, i + 1) == ([c], i + |e|);
    }
  }

  lemma HexBack(c: char, t: string, i: nat)
    requires 0 < c as int < 32 && i + 6 <= |t|
    requires At(t, i + 1) == 'u' && At(t, i + 2) == '0' && At(t, i + 3) == '0'
    requires At(t, i + 4) == HexDigit(c as nat / 16) && At(t, i + 5) == HexDigit(c as nat % 16)
    ensures Unescape(t, i + 1) == ([c], i + 6)
  {
    assert Hex4(t, i + 2) && ScanUnicode(t, i + 2) == c as nat;
  }

  lemma EscapeCases(s: string, t: string, i: nat)
    ensures s == "" ==> Escape(s) == "" && (i <= |t| && At(t, i) == '\"' ==> StringBody(t, i) == ("", i))
    ensures s != "" ==> Escape(s) == EscapeChar(s[0]) + Escape(s[1..]) && [s[0]] + s[1..] == s
    ensures s != "" && NulFree(s) ==> s[0] != NUL && NulFree(s[1..])
    ensures At(t, i) == '\"' ==> i < |t|
  {
    hide EscapeChar;
  }

  lemma {:induction false} EscapeBack(s: string, t: string, i: nat)
    requires NulFree(s) && HasAt(t, i, Escape(s)) && At(t, i + |Escape(s)|) == '\"'
    ensures StringBody(t, i) == (s, i + |Escape(s)|)
    decreases |s|
  {
    hide *;
    EscapeCases(s, t, i);
    if s != "" {
      var c, rest := s[0], s[1..];
      Split(t, i, EscapeChar(c), Escape(rest));
      EscapeCharBack(c, t, i);
      EscapeBack(rest, t, i + |EscapeChar(c)|);
    }
  }

  lemma StringBack(s: string, t: string, i: nat)
    requires NulFree(s) && HasAt(t, i, PrintString(s))
    ensures ParseString(t, i) == Some((s, i + |PrintString(s)|))
  {
    Split(t, i, "\"", Escape(s) + "\"");
    Split(t, i + 1, Escape(s), "\"");
    HeadAt(t, i, "\"");
    HeadAt(t, i + 1 + |Escape(s)|, "\"");
    EscapeBack(s, t, i + 1);
  }

  // ----- numbers ---------------------------------------------------------------------

  predicate EndsNumber(c: char) { !IsDigit(c) && c != '.' && c != 'e' && c != 'E' }

  lemma {:induction false} DigitsBack(n: nat, t: string, i: nat)
    requires HasAt(t, i, NatText(n))
    ensures i + |NatText(n)| <= |t| && Digits(t, i, 0.0) == Digits(t, i + |NatText(n)|, n as real)
  {
    if n < 10 {
      HeadAt(t, i, NatText(n));
    } else {
      Split(t, i, NatText(n / 10), [Digit(n % 10)]);
      DigitsBack(n / 10, t, i);
      HeadAt(t, i + |NatText(n / 10)|, [Digit(n % 10)]);
      assert (n / 10) as real * 10.0 + (n % 10) as real == n as real;
    }
  }

  lemma NatBack(n: nat, t: string, i: nat)
    requires HasAt(t, i, NatText(n)) && EndsNumber(At(t, i + |NatText(n)|))
    ensures var p := if At(t, i) == '0' then i + 1 else i;
            (if '1' <= At(t, p) <= '9' then Digits(t, p, 0.0) else (0.0, p)) == (n as real, i + |NatText(n)|)
  {
    NatTextHead(n);
    HeadAt(t, i, NatText(n));
    DigitsBack(n, t, i);
  }

  lemma NumberBack(n: int, t: string, i: nat)
    requires HasAt(t, i, IntText(n)) && EndsNumber(At(t, i + |IntText(n)|))
    ensures ParseNumber(t, i) == (n as real, i + |IntText(n)|)
    ensures At(t, i) == '-' || IsDigit(At(t, i))
  {
    HeadAt(t, i, IntText(n));
    ScaledByOne(if n < 0 then -n else n);
    if n < 0 {
      Split(t, i, "-", NatText(-n));
      NatBack(-n, t, i + 1);
      NatTextHead(-n);
    } else {
      NatTextHead(n);
      NatBack(n, t, i);
    }
    hide Scaled, Digits, Exponent, NatText;
  }

  lemma ScaledByOne(n: nat)
    ensures Scaled(-1.0, n as real, 0) == -(n as real) && Scaled(1.0, n as real, 0) == n as real
  {
    assert Pow10(0) == 1.0;
  }

  // ----- blanks ------------------------------------------------------------------------

  predicate IsBlank(c: char) { c != NUL && c as int <= 32 }

  lemma SkipNothing(t: string, i: nat)
    requires i <= |t| && !IsBlank(At(t, i))
    ensures Skip(t, i) == i
  {
  }

  lemma {:induction false} SkipStops(t: string, i: nat)
    requires i <= |t|
    ensures !IsBlank(At(t, Skip(t, i))) && Skip(t, Skip(t, i)) == Skip(t, i)
    ensures !IsBlank(At(t, i)) ==> Skip(t, i) == i
    decreases |t| - i
  {
    if IsBlank(At(t, i)) {
      SkipStops(t, i + 1);
    }
  }

  lemma {:induction false} SkipTabs(t: string, i: nat, n: nat)
    requires HasAt(t, i, Tabs(n))
    ensures |Tabs(n)| == n && i + n <= |t| && Skip(t, i) == Skip(t, i + n)
    decreases n
  {
    if n > 0 {
      Split(t, i, "\t", Tabs(n - 1));
      HeadAt(t, i, "\t");
      SkipTabs(t, i + 1, n - 1);
    }
  }

  // ----- trees --------------------------------------------------------------------------

  /** A printed value starts with none of the characters the parser treats apart. */
  lemma ValueHead(j: Json, depth: nat, fmt: bool)
    requires Printable(j)
    ensures var s := PrintValue(j, depth, fmt);
            s != "" && !IsBlank(s[0]) && s[0] != ']' && s[0] != '}' && s[0] != NUL
  {
    if j.Number? {
      NatTextHead(if j.d.Floor < 0 then -j.d.Floor else j.d.Floor);
    }
  }

  lemma NotWord(t: string, i: nat, w: string)
    requires w != "" && At(t, i) != w[0]
    ensures !HasAt(t, i, w)
  {
    if HasAt(t, i, w) {
      HeadAt(t, i, w);
    }
  }

  lemma NoWords(t: string, i: nat)
    requires At(t, i) !in {'n', 'f', 't'}
    ensures !HasAt(t, i, "null") && !HasAt(t, i, "false") && !HasAt(t, i, "true")
  {
    NotWord(t, i, "null");
    NotWord(t, i, "false");
    NotWord(t, i, "true");
  }

  lemma NumberLeaf(d: real, t: string, i: nat)
    requires IsInt(d) && HasAt(t, i, IntText(d.Floor)) && EndsNumber(At(t, i + |IntText(d.Floor)|))
    ensures ParseValue(t, i) == Some((Number(d), i + |IntText(d.Floor)|))
  {
    NumberBack(d.Floor, t, i);
    hide IntText, ParseNumber, HasAt;
    NoWords(t, i);
  }

  lemma WordLeaf(j: Json, t: string, i: nat)
    requires j in {Null, False, True}
    requires HasAt(t, i, if j == Null then "null" else if j == False then "false" else "true")
    ensures ParseValue(t, i) == Some((j, i + if j == False then 5 else 4))
  {
    hide ParseString, ParseNumber;
    if j == False {
      NotWord(t, i, "null");
    } else if j == True {
      NotWord(t, i, "null");
      NotWord(t, i, "false");
    }
  }

  lemma LeafBack(j: Json, depth: nat, fmt: bool, t: string, i: nat)
    requires Printable(j) && !j.Array? && !j.Object? && HasAt(t, i, PrintValue(j, depth, fmt))
    requires EndsNumber(At(t, i + |PrintValue(j, depth, fmt)|))
    ensures ParseValue(t, i) == Some((j, i + |PrintValue(j, depth, fmt)|))
  {
    HeadAt(t, i, PrintValue(j, depth, fmt));
    match j
    case Number(d) =>
      NumberLeaf(d, t, i);
    case Str(s) =>
      hide PrintString, ParseNumber, HasAt;
      StringBack(s, t, i);
      NoWords(t, i);
    case _ =>
      hide ParseString, ParseNumber, PrintString;
      WordLeaf(j, t, i);
  }

  lemma {:induction false} ValueBack(j: Json, depth: nat, fmt: bool, t: string, i: nat)
    requires Printable(j) && HasAt(t, i, PrintValue(j, depth, fmt))
    requires EndsNumber(At(t, i + |PrintValue(j, depth, fmt)|))
    ensures ParseValue(t, i) == Some((j, i + |PrintValue(j, depth, fmt)|))
    decreases j, 1
  {
    match j
    case Array(items) => ArrayBack(items, depth, fmt, t, i);
    case Object(ms) => ObjectBack(ms, depth, fmt, t, i);
    case _ => LeafBack(j, depth, fmt, t, i);
  }

  lemma {:induction false} ArrayBack(items: seq<Json>, depth: nat, fmt: bool, t: string, i: nat)
    requires Printable(Array(items)) && HasAt(t, i, PrintValue(Array(items), depth, fmt))
    ensures ParseValue(t, i) == Some((Array(items), i + |PrintValue(Array(items), depth, fmt)|))
    decreases items, 1
  {
    hide *;
    PrintableItems(items, depth, fmt);
    var body := PrintItems(items, depth + 1, fmt);
    BracketsAt(t, i, body);
    if items == [] {
      ArrayParses(t, i, i + 1, items, i + 2);
    } else {
      ItemsHead(items, depth + 1, fmt);
      BodyAt(t, i + 1, body);
      ItemsBack(items, depth + 1, fmt, t, i + 1, i + 1);
      ArrayParses(t, i, i + 1, items, i + 1 + |body| + 1);
    }
  }

  lemma BracketsAt(t: string, i: nat, body: string)
    requires HasAt(t, i, "[" + (body + "]"))
    ensures i < |t| && At(t, i) == '[' && HasAt(t, i + 1, body) && At(t, i + 1 + |body|) == ']'
    ensures body == "" ==> Skip(t, i + 1) == i + 1
  {
    Split(t, i, "[", body + "]");
    Split(t, i + 1, body, "]");
    HeadAt(t, i, "[");
    HeadAt(t, i + 1 + |body|, "]");
  }

  lemma BodyAt(t: string, i: nat, s: string)
    requires HasAt(t, i, s) && s != "" && !IsBlank(s[0]) && s[0] != ']'
    ensures i < |t| && Skip(t, i) == i && At(t, i) != ']'
  {
  }

  lemma ArrayParses(t: string, i: nat, p: nat, items: seq<Json>, q: nat)
    requires i < |t| && At(t, i) == '[' && Skip(t, i + 1) == p
    requires if items == [] then At(t, p) == ']' && q == p + 1 else At(t, p) != ']' && ParseItems(t, p) == Some((items, q))
    ensures ParseValue(t, i) == Some((Array(items), q))
  {
    NoWords(t, i);
  }

  lemma ItemsHead(items: seq<Json>, depth: nat, fmt: bool)
    requires items != [] && forall k :: 0 <= k < |items| ==> Printable(items[k])
    ensures var s := PrintItems(items, depth, fmt); s != "" && !IsBlank(s[0]) && s[0] != ']'
  {
    ValueHead(items[0], depth, fmt);
  }

  lemma LastItemParses(t: string, i: nat, at: nat, items: seq<Json>, e: nat)
    requires |items| == 1 && i <= |t| && Skip(t, i) == at && ParseValue(t, at) == Some((items[0], e))
    requires Skip(t, e) == e && At(t, e) == ']'
    ensures ParseItems(t, i) == Some((items, e + 1))
  {
    assert items == [items[0]];
  }

  lemma ItemParses(t: string, i: nat, at: nat, items: seq<Json>, e: nat, q: nat)
    requires |items| > 1 && i <= |t| && Skip(t, i) == at && ParseValue(t, at) == Some((items[0], e))
    requires e < |t| && Skip(t, e) == e && At(t, e) == ',' && ParseItems(t, e + 1) == Some((items[1..], q))
    ensures ParseItems(t, i) == Some((items, q))
  {
    assert items == [items[0]] + items[1..];
  }

  /** A comma, perhaps a blank, and then text that starts with no blank. */
  lemma CommaAt(t: string, at: nat, v: string, blank: string, rest: string)
    requires HasAt(t, at, v + ("," + (blank + rest))) && (blank == "" || blank == " ")
    requires rest != "" && !IsBlank(rest[0])
    ensures var e := at + |v|;
            var next := e + 1 + |blank|;
            HasAt(t, at, v) && e < |t| && At(t, e) == ',' && Skip(t, e) == e && HasAt(t, next, rest) &&
            next <= |t| && Skip(t, e + 1) == next
  {
    var e := at + |v|;
    Split(t, at, v, "," + (blank + rest));
    Split(t, e, ",", blank + rest);
    Split(t, e + 1, blank, rest);
    HeadAt(t, e, ",");
    HeadAt(t, e + 1 + |blank|, rest);
    if blank != "" {
      HeadAt(t, e + 1, " ");
    }
    SkipNothing(t, e + 1 + |blank|);
  }

  /** at is where the items are printed; blanks may lie between i and there. */
  lemma {:induction false} ItemsBack(items: seq<Json>, depth: nat, fmt: bool, t: string, i: nat, at: nat)
    requires items != [] && forall k :: 0 <= k < |items| ==> Printable(items[k])
    requires HasAt(t, at, PrintItems(items, depth, fmt)) && i <= |t| && Skip(t, i) == at
    requires At(t, at + |PrintItems(items, depth, fmt)|) == ']'
    ensures ParseItems(t, i) == Some((items, at + |PrintItems(items, depth, fmt)| + 1))
    decreases items, 0
  {
    hide *;
    var e := at + |PrintValue(items[0], depth, fmt)|;
    ItemsShape(items, depth, fmt, t, at);
    ValueBack(items[0], depth, fmt, t, at);
    if |items| == 1 {
      LastItemParses(t, i, at, items, e);
    } else {
      var next := e + 1 + |If(fmt, " ")|;
      ItemsBack(items[1..], depth, fmt, t, e + 1, next);
      ItemParses(t, i, at, items, e, next + |PrintItems(items[1..], depth, fmt)| + 1);
    }
  }

  /** The first item, and the comma and blank before the others. */
  lemma ItemsShape(items: seq<Json>, depth: nat, fmt: bool, t: string, at: nat)
    requires items != [] && forall k :: 0 <= k < |items| ==> Printable(items[k])
    requires HasAt(t, at, PrintItems(items, depth, fmt))
    requires At(t, at + |PrintItems(items, depth, fmt)|) == ']'
    ensures var e := at + |PrintValue(items[0], depth, fmt)|;
            HasAt(t, at, PrintValue(items[0], depth, fmt)) && e <= |t| && EndsNumber(At(t, e)) && Skip(t, e) == e &&
            if |items| == 1 then at + |PrintItems(items, depth, fmt)| == e && At(t, e) == ']'
            else
              var next := e + 1 + |If(fmt, " ")|;
              var rest := PrintItems(items[1..], depth, fmt);
              e < |t| && At(t, e) == ',' && HasAt(t, next, rest) && next <= |t| && Skip(t, e + 1) == next &&
              at + |PrintItems(items, depth, fmt)| == next + |rest|
  {
    hide PrintValue, PrintItems, HasAt, Skip, Printable;
    var v := PrintValue(items[0], depth, fmt);
    ItemsText(items, depth, fmt);
    if |items| == 1 {
      SkipNothing(t, at + |v|) by { HasAtFits(t, at, v); }
      HasAtFits(t, at, v);
    } else {
      ItemsHead(items[1..], depth, fmt);
      CommaAt(t, at, v, If(fmt, " "), PrintItems(items[1..], depth, fmt));
    }
  }

  lemma ItemsText(items: seq<Json>, depth: nat, fmt: bool)
    requires items != [] && forall k :: 0 <= k < |items| ==> Printable(items[k])
    ensures PrintItems(items, depth, fmt) ==
      if |items| == 1 then PrintValue(items[0], depth, fmt)
      else PrintValue(items[0], depth, fmt) + ("," + (If(fmt, " ") + PrintItems(items[1..], depth, fmt)))
  {
    hide PrintValue;
    if |items| == 1 {
      assert PrintValue(items[0], depth, fmt) + "" == PrintValue(items[0], depth, fmt);
    }
  }

  lemma HasAtFits(t: string, i: nat, s: string)
    requires HasAt(t, i, s)
    ensures i + |s| <= |t|
  {
  }

  lemma PrintableMembers(ms: seq<Member>, depth: nat, fmt: bool)
    requires Printable(Object(ms))
    ensures forall k :: 0 <= k < |ms| ==> NulFree(ms[k].name) && Printable(ms[k].value)
    ensures ms == [] ==> PrintMembers(ms, depth, fmt) == ""
  {
  }

  lemma PrintableItems(items: seq<Json>, depth: nat, fmt: bool)
    requires Printable(Array(items))
    ensures forall k :: 0 <= k < |items| ==> Printable(items[k])
    ensures items == [] ==> PrintItems(items, depth + 1, fmt) == ""
    ensures PrintValue(Array(items), depth, fmt) == "[" + (PrintItems(items, depth + 1, fmt) + "]")
  {
  }

  lemma {:induction false} ObjectBack(ms: seq<Member>, depth: nat, fmt: bool, t: string, i: nat)
    requires Printable(Object(ms)) && HasAt(t, i, PrintValue(Object(ms), depth, fmt))
    ensures ParseValue(t, i) == Some((Object(ms), i + |PrintValue(Object(ms), depth, fmt)|))
    decreases ms, 2
  {
    hide *;
    PrintableMembers(ms, depth + 1, fmt);
    var k := i + 1 + |If(fmt, "\n")|;
    var e := k + |PrintMembers(ms, depth + 1, fmt)|;
    ObjectShape(ms, depth, fmt, t, i);
    if ms == [] {
      ObjectParses(t, i, Skip(t, e), [], Skip(t, e) + 1);
    } else {
      MembersHead(ms, depth + 1, fmt, t, k);
      SkipStops(t, k);
      MembersBack(ms, depth + 1, fmt, t, Skip(t, k), k);
      ObjectParses(t, i, Skip(t, k), ms, Skip(t, e) + 1);
    }
  }

  lemma ObjectParses(t: string, i: nat, p: nat, ms: seq<Member>, q: nat)
    requires i < |t| && At(t, i) == '{' && Skip(t, i + 1) == p
    requires if ms == [] then At(t, p) == '}' && q == p + 1 else At(t, p) != '}' && ParseMembers(t, p) == Some((ms, q))
    ensures ParseValue(t, i) == Some((Object(ms), q))
  {
    NoWords(t, i);
  }

  /** The braces and the blanks inside them. */
  lemma ObjectShape(ms: seq<Member>, depth: nat, fmt: bool, t: string, i: nat)
    requires Printable(Object(ms)) && HasAt(t, i, PrintValue(Object(ms), depth, fmt))
    ensures var k := i + 1 + |If(fmt, "\n")|;
            var e := k + |PrintMembers(ms, depth + 1, fmt)|;
            i < |t| && At(t, i) == '{' && HasAt(t, k, PrintMembers(ms, depth + 1, fmt)) &&
            k <= |t| && Skip(t, i + 1) == Skip(t, k) && e <= |t| && At(t, Skip(t, e)) == '}' &&
            Skip(t, e) + 1 == i + |PrintValue(Object(ms), depth, fmt)|
  {
    var body := PrintMembers(ms, depth + 1, fmt);
    var close := If(fmt, Tabs(depth)) + "}";
    Split(t, i, "{", If(fmt, "\n") + (body + close));
    Split(t, i + 1, If(fmt, "\n"), body + close);
    Split(t, i + 1 + |If(fmt, "\n")|, body, close);
    HeadAt(t, i, "{");
    if fmt {
      HeadAt(t, i + 1, "\n");
    }
    CloseBack(t, i + 1 + |If(fmt, "\n")| + |body|, depth, fmt);
  }

  lemma CloseBack(t: string, e: nat, depth: nat, fmt: bool)
    requires HasAt(t, e, If(fmt, Tabs(depth)) + "}")
    ensures e <= |t| && At(t, Skip(t, e)) == '}' && Skip(t, e) + 1 == e + |If(fmt, Tabs(depth)) + "}"|
  {
    Split(t, e, If(fmt, Tabs(depth)), "}");
    var q := e + |If(fmt, Tabs(depth))|;
    HeadAt(t, q, "}");
    if fmt {
      SkipTabs(t, e, depth);
    }
    SkipNothing(t, q);
  }

  lemma MemberStart(ms: seq<Member>, depth: nat, fmt: bool)
    requires ms != [] && forall k :: 0 <= k < |ms| ==> NulFree(ms[k].name) && Printable(ms[k].value)
    ensures PrintMembers(ms, depth, fmt) == If(fmt, Tabs(depth)) + PrintMember(ms, depth, fmt)
    ensures PrintMember(ms, depth, fmt) != "" && PrintMember(ms, depth, fmt)[0] == '\"'
  {
    hide PrintValue;
  }

  lemma MembersHead(ms: seq<Member>, depth: nat, fmt: bool, t: string, k: nat)
    requires ms != [] && forall k :: 0 <= k < |ms| ==> NulFree(ms[k].name) && Printable(ms[k].value)
    requires HasAt(t, k, PrintMembers(ms, depth, fmt))
    ensures var q := k + |If(fmt, Tabs(depth))|;
            q <= |t| && Skip(t, k) == q && At(t, q) == '\"' && HasAt(t, q, PrintMember(ms, depth, fmt))
  {
    hide PrintMember, PrintMembers, PrintValue, HasAt, Skip, NulFree, Printable;
    var tail := PrintMember(ms, depth, fmt);
    MemberStart(ms, depth, fmt);
    Split(t, k, If(fmt, Tabs(depth)), tail);
    HeadAt(t, k + |If(fmt, Tabs(depth))|, tail);
    if fmt {
      SkipTabs(t, k, depth);
    }
    SkipNothing(t, k + |If(fmt, Tabs(depth))|);
  }

  /** Where a name, a value and what follows them stand, from the opening quote q on. */
  lemma MemberAt(t: string, q: nat, name: string, tab: string, v: string, rest: string)
    requires HasAt(t, q, name + (":" + (tab + (v + rest)))) && (tab == "" || tab == "\t")
    requires v != "" && !IsBlank(v[0])
    ensures var c := q + |name|;
            var x := c + 1 + |tab|;
            HasAt(t, q, name) && c < |t| && At(t, c) == ':' && Skip(t, c) == c &&
            x <= |t| && Skip(t, c + 1) == x && HasAt(t, x, v) && HasAt(t, x + |v|, rest)
  {
    var c := q + |name|;
    Split(t, q, name, ":" + (tab + (v + rest)));
    Split(t, c, ":", tab + (v + rest));
    Split(t, c + 1, tab, v + rest);
    Split(t, c + 1 + |tab|, v, rest);
    HeadAt(t, c, ":");
    if tab != "" {
      HeadAt(t, c + 1, "\t");
    }
    HeadAt(t, c + 1 + |tab|, v);
    SkipNothing(t, c + 1 + |tab|);
  }

  /** Behind the last value: just blanks. */
  lemma TailLast(t: string, y: nat, line: string)
    requires HasAt(t, y, line) && (line == "" || line == "\n") && At(t, Skip(t, y + |line|)) == '}'
    ensures y <= |t| && EndsNumber(At(t, y)) && Skip(t, y) == Skip(t, y + |line|)
  {
  }

  /** Behind any other value: a comma and the blanks before the next member. */
  lemma TailMore(t: string, y: nat, line: string, rest: string)
    requires HasAt(t, y, "," + (line + rest)) && (line == "" || line == "\n")
    ensures var z := y + 1 + |line|;
            y < |t| && At(t, y) == ',' && EndsNumber(At(t, y)) && Skip(t, y) == y && z <= |t| &&
            HasAt(t, z, rest) && Skip(t, y + 1) == Skip(t, z)
  {
    Split(t, y, ",", line + rest);
    Split(t, y + 1, line, rest);
    HeadAt(t, y, ",");
    if line != "" {
      HeadAt(t, y + 1, "\n");
    }
  }

  /** ParseMember put together from its parts. */
  lemma MemberParses(t: string, i: nat, q: nat, m: Member, c: nat, x: nat, y: nat)
    requires i <= |t| && Skip(t, i) == q && ParseString(t, q) == Some((m.name, c)) && Skip(t, c) == c
    requires c < |t| && At(t, c) == ':' && Skip(t, c + 1) == x && ParseValue(t, x) == Some((m.value, y))
    ensures ParseMember(t, i) == Some((m, Skip(t, y)))
  {
  }

  lemma LastMemberParses(t: string, i: nat, ms: seq<Member>, y: nat)
    requires |ms| == 1 && i <= |t| && ParseMember(t, i) == Some((ms[0], y)) && At(t, y) == '}'
    ensures ParseMembers(t, i) == Some((ms, y + 1))
  {
    assert ms == [ms[0]];
  }

  lemma MoreMembersParse(t: string, i: nat, ms: seq<Member>, y: nat, q: nat)
    requires |ms| > 1 && i <= |t| && ParseMember(t, i) == Some((ms[0], y)) && y < |t| && At(t, y) == ','
    requires ParseMembers(t, y + 1) == Some((ms[1..], q))
    ensures ParseMembers(t, i) == Some((ms, q))
  {
    assert ms == [ms[0]] + ms[1..];
  }

  /** The parts of the first member from its opening quote q on, and what follows its value. */
  lemma MemberShape(ms: seq<Member>, depth: nat, fmt: bool, t: string, k: nat)
    requires ms != [] && forall k :: 0 <= k < |ms| ==> NulFree(ms[k].name) && Printable(ms[k].value)
    requires HasAt(t, k, PrintMembers(ms, depth, fmt))
    requires var e := k + |PrintMembers(ms, depth, fmt)|; e <= |t| && At(t, Skip(t, e)) == '}'
    ensures k <= |t| &&
            var q := Skip(t, k);
            var c := q + |PrintString(ms[0].name)|;
            var x := c + 1 + |If(fmt, "\t")|;
            var y := x + |PrintValue(ms[0].value, depth, fmt)|;
            var e := k + |PrintMembers(ms, depth, fmt)|;
            HasAt(t, q, PrintString(ms[0].name)) && c < |t| && At(t, c) == ':' && Skip(t, c) == c &&
            x <= |t| && Skip(t, c + 1) == x && HasAt(t, x, PrintValue(ms[0].value, depth, fmt)) &&
            y <= |t| && EndsNumber(At(t, y)) &&
            if |ms| == 1 then Skip(t, y) == Skip(t, e)
            else
              var z := y + 1 + |If(fmt, "\n")|;
              y < |t| && At(t, y) == ',' && Skip(t, y) == y && z <= |t| && Skip(t, y + 1) == Skip(t, z) &&
              HasAt(t, z, PrintMembers(ms[1..], depth, fmt)) && e == z + |PrintMembers(ms[1..], depth, fmt)|
  {
    hide *;
    MembersHead(ms, depth, fmt, t, k);
    var q := Skip(t, k);
    var name, v := PrintString(ms[0].name), PrintValue(ms[0].value, depth, fmt);
    var tab, line, rest := If(fmt, "\t"), If(fmt, "\n"), PrintMembers(ms[1..], depth, fmt);
    MemberText(ms, depth, fmt);
    ValueHead(ms[0].value, depth, fmt);
    var y := q + |name| + 1 + |tab| + |v|;
    if |ms| == 1 {
      MemberAt(t, q, name, tab, v, line);
      TailLast(t, y, line);
    } else {
      MemberAt(t, q, name, tab, v, "," + (line + rest));
      TailMore(t, y, line, rest);
    }
  }

  /** k is where the members are printed; reading starts at i, with only blanks between. */
  lemma {:induction false} MembersBack(ms: seq<Member>, depth: nat, fmt: bool, t: string, i: nat, k: nat)
    requires ms != [] && forall k :: 0 <= k < |ms| ==> NulFree(ms[k].name) && Printable(ms[k].value)
    requires HasAt(t, k, PrintMembers(ms, depth, fmt)) && i <= |t| && Skip(t, i) == Skip(t, k)
    requires var e := k + |PrintMembers(ms, depth, fmt)|; At(t, Skip(t, e)) == '}'
    ensures var e := k + |PrintMembers(ms, depth, fmt)|;
            ParseMembers(t, i) == Some((ms, Skip(t, e) + 1))
    decreases ms, 1
  {
    hide *;
    MemberShape(ms, depth, fmt, t, k);
    var q := Skip(t, k);
    StringBack(ms[0].name, t, q);
    var c := q + |PrintString(ms[0].name)|;
    var x := c + 1 + |If(fmt, "\t")|;
    ValueBack(ms[0].value, depth, fmt, t, x);
    var y := x + |PrintValue(ms[0].value, depth, fmt)|;
    MemberParses(t, i, q, ms[0], c, x, y);
    if |ms| == 1 {
      LastMemberParses(t, i, ms, Skip(t, y));
    } else {
      MembersBack(ms[1..], depth, fmt, t, y + 1, y + 1 + |If(fmt, "\n")|);
      MoreMembersParse(t, i, ms, y, Skip(t, k + |PrintMembers(ms, depth, fmt)|) + 1);
    }
  }

  /** cJSON_Parse undoes cJSON_Print and cJSON_PrintUnformatted. */
  lemma RoundTrip(j: Json, fmt: bool)
    requires Printable(j)
    ensures Parse(PrintValue(j, 0, fmt)) == Some(j)
  {
    var t := PrintValue(j, 0, fmt);
    InText("", t, "");
    assert "" + t + "" == t;
    ValueHead(j, 0, fmt);
    SkipNothing(t, 0);
    ValueBack(j, 0, fmt, t, 0);
  }

  /** The same inside any longer text, at any depth. */
  lemma RoundTripInText(j: Json, depth: nat, fmt: bool, before: string, after: string)
    requires Printable(j) && (after == "" || EndsNumber(after[0]))
    ensures var s := PrintValue(j, depth, fmt);
            ParseValue(before + s + after, |before|) == Some((j, |before + s|))
  {
    hide PrintValue, ParseValue, HasAt, Printable;
    var s := PrintValue(j, depth, fmt);
    var t := before + s + after;
    InText(before, s, after);
    assert |before| + |s| == |before + s|;
    assert after != "" ==> t[|before + s|] == after[0];
    ValueBack(j, depth, fmt, t, |before|);
  }

  // ----- surrogate pairs -------------------------------------------------------------------

  /** The code point of a surrogate pair (section 2 of RFC 2781). */
  function Utf16Pair(hi: nat, lo: nat): nat
    requires 0xD800 <= hi <= 0xDBFF && 0xDC00 <= lo <= 0xDFFF
  {
    0x10000 + (hi - 0xD800) * 0x400 + (lo - 0xDC00)
  }

  lemma JoinIff(hi: nat, lo: nat)
    requires 0xD800 <= hi <= 0xDBFF && 0xDC00 <= lo <= 0xDFFF
    ensures JoinSurrogates(hi, lo) == Utf16Pair(hi, lo) <==> hi / 0x40 % 2 == 0
    ensures JoinSurrogates(hi, lo) >= 0x10000
  {
    var x := (hi % 0x400) * 0x400 + lo % 0x400;
    assert hi % 0x400 == hi - 0xD800 && lo % 0x400 == lo - 0xDC00;
    assert x / 0x10000 == (hi % 0x400) / 0x40;
  }

  /** Four-byte forms of different code points differ. */
  lemma Utf8CharsInjective(a: nat, b: nat)
    requires 0x10000 <= a < 0x20_0000 && 0x10000 <= b < 0x20_0000 && Utf8Chars(a) == Utf8Chars(b)
    ensures a == b
  {
    FourthsBack(a);
    FourthsBack(b);
    var s, t := Utf8Chars(a), Utf8Chars(b);
    assert s[0] == t[0] && s[1] == t[1] && s[2] == t[2] && s[3] == t[3];
  }

  lemma FourthsBack(a: nat)
    requires 0x10000 <= a < 0x20_0000
    ensures var s := Utf8Chars(a);
            |s| == 4 && a == 0x40000 * (s[0] as int - 0xF0) + 0x1000 * (s[1] as int - 0x80) +
                             0x40 * (s[2] as int - 0x80) + (s[3] as int - 0x80)
  {
    assert a / 0x1000 == 0x40 * (a / 0x40000) + a / 0x1000 % 0x40;
    assert a / 0x40 == 0x40 * (a / 0x1000) + a / 0x40 % 0x40;
    assert a == 0x40 * (a / 0x40) + a % 0x40;
  }

  // ----- \u escapes ---------------------------------------------------------------------------------

  /** c is the hexadecimal digit of d, in either case. */
  predicate WritesDigit(c: char, d: nat) {
    (d < 10 && c as int == 0x30 + d) || (10 <= d < 16 && (c as int == 0x37 + d || c as int == 0x57 + d))
  }

  /** The four characters of the text from i on write n in hexadecimal. */
  predicate Writes(t: string, i: nat, n: nat) {
    && i + 4 <= |t| && n < 0x10000
    && WritesDigit(t[i], n / 0x1000) && WritesDigit(t[i + 1], n / 0x100 % 0x10)
    && WritesDigit(t[i + 2], n / 0x10 % 0x10) && WritesDigit(t[i + 3], n % 0x10)
  }

  lemma DigitScanned(c: char, d: nat)
    ensures WritesDigit(c, d) ==> IsHexDigit(c) && HexValue(c) == d
    ensures IsHexDigit(c) ==> WritesDigit(c, HexValue(c))
  {
  }

  /** scan_unicode reads what the digits write. */
  lemma Scanned(t: string, i: nat, n: nat)
    ensures Writes(t, i, n) <==> Hex4(t, i) && ScanUnicode(t, i) == n
  {
    hide WritesDigit, IsHexDigit, HexValue;
    if Writes(t, i, n) {
      DigitScanned(t[i], n / 0x1000);
      DigitScanned(t[i + 1], n / 0x100 % 0x10);
      DigitScanned(t[i + 2], n / 0x10 % 0x10);
      DigitScanned(t[i + 3], n % 0x10);
      Recomposed(n);
    }
    if Hex4(t, i) {
      FourInside(t, i);
      var a, b, c, d := HexValue(t[i]), HexValue(t[i + 1]), HexValue(t[i + 2]), HexValue(t[i + 3]);
      DigitScanned(t[i], a);
      DigitScanned(t[i + 1], b);
      DigitScanned(t[i + 2], c);
      DigitScanned(t[i + 3], d);
      HexParts(a, b, c, d);
    }
  }

  lemma FourInside(t: string, i: nat)
    requires Hex4(t, i)
    ensures i + 4 <= |t| && forall k :: i <= k < i + 4 ==> At(t, k) == t[k] && HexValue(t[k]) < 16
  {
  }

  lemma Recomposed(n: nat)
    requires n < 0x10000
    ensures n == n / 0x1000 * 0x1000 + n / 0x100 % 0x10 * 0x100 + n / 0x10 % 0x10 * 0x10 + n % 0x10
  {
    Nested(n);
    Peeled(n);
    Peeled(n / 0x10);
    Peeled(n / 0x100);
  }

  lemma Nested(n: nat)
    ensures n / 0x10 / 0x10 == n / 0x100 && n / 0x100 / 0x10 == n / 0x1000
  {
  }

  lemma Peeled(n: nat)
    ensures n == n / 0x10 * 0x10 + n % 0x10
  {
  }

  lemma HexParts(a: nat, b: nat, c: nat, d: nat)
    requires a < 16 && b < 16 && c < 16 && d < 16
    ensures var n := a * 0x1000 + b * 0x100 + c * 0x10 + d;
            n / 0x1000 == a && n / 0x100 % 0x10 == b && n / 0x10 % 0x10 == c && n % 0x10 == d
  {
    var n := a * 0x1000 + b * 0x100 + c * 0x10 + d;
    OneDigit(a * 0x100 + b * 0x10 + c, d);
    OneDigit(a * 0x10 + b, c);
    OneDigit(a, b);
    assert n / 0x100 == n / 0x10 / 0x10 && n / 0x1000 == n / 0x10 / 0x10 / 0x10;
  }

  lemma OneDigit(q: nat, d: nat)
    requires d < 16
    ensures (q * 0x10 + d) / 0x10 == q && (q * 0x10 + d) % 0x10 == d
  {
  }

  /** An escape of a code point is read as its UTF-8; NUL and a low surrogate alone as nothing. */
  lemma EscapeIsUtf8(t: string, i: nat, n: nat)
    requires i <= |t| && At(t, i) == 'u' && Writes(t, i + 1, n)
    ensures 0 < n && !(0xD800 <= n <= 0xDFFF) ==> JsonUnicode.StandsFor(Unescape(t, i).0, n) && Unescape(t, i).1 == i + 5
    ensures n == 0 || 0xDC00 <= n <= 0xDFFF ==> Unescape(t, i) == ("", i + 5)
  {
    hide Hex4, ScanUnicode, Utf8Chars, Writes, JsonUnicode.StandsFor;
    Scanned(t, i + 1, n);
    if 0 < n && !(0xD800 <= n <= 0xDFFF) {
      Fits(t, i + 1, n);
      JsonUnicode.StandsForIff(Utf8Chars(n), n);
    }
  }

  lemma Fits(t: string, i: nat, n: nat)
    requires Writes(t, i, n)
    ensures n < 0x10000
  {
  }

  /** A string literal that is one escape. */
  lemma LiteralIsUtf8(t: string, n: nat)
    requires |t| == 8 && t[0] == '\"' && t[1] == '\\' && t[2] == 'u' && Writes(t, 3, n) && t[7] == '\"'
    requires 0 < n && !(0xD800 <= n <= 0xDFFF)
    ensures
      var r := ParseString(t, 0);
      r.Some? && r.value.1 == 8 && JsonUnicode.StandsFor(r.value.0, n)
  {
    hide Utf8Chars, ScanUnicode, Hex4, Writes, JsonUnicode.StandsFor;
    EscapeIsUtf8(t, 2, n);
    var u := Unescape(t, 2).0;
    assert Unescape(t, 2) == (u, 7);
    assert StringBody(t, 7) == ("", 7);
    hide Unescape;
    assert StringBody(t, 1) == (u + "", 7) && u + "" == u;
  }

  /** Digits of either case: U+4E2D is E4 B8 AD. */
  lemma LiteralExamples()
    ensures ParseString("\"\\u4e2d\"", 0) == Some(([0xE4 as char, 0xB8 as char, 0xAD as char], 8))
    ensures ParseString("\"\\u4E2D\"", 0) == Some(([0xE4 as char, 0xB8 as char, 0xAD as char], 8))
  {
    hide ParseString, Utf8Chars;
    LiteralIs("\"\\u4e2d\"", 0x4E2D);
    LiteralIs("\"\\u4E2D\"", 0x4E2D);
    SomeChars();
  }

  /** U+00E9 is C3 A9 and U+0041 is 41. */
  lemma ShortExamples()
    ensures ParseString("\"\\u00e9\"", 0) == Some(([0xC3 as char, 0xA9 as char], 8))
    ensures ParseString("\"\\u0041\"", 0) == Some(("A", 8))
  {
    hide ParseString, Utf8Chars;
    LiteralIs("\"\\u00e9\"", 0xE9);
    LiteralIs("\"\\u0041\"", 0x41);
    SomeChars();
  }

  lemma SomeChars()
    ensures Utf8Chars(0x4E2D) == [0xE4 as char, 0xB8 as char, 0xAD as char]
    ensures Utf8Chars(0xE9) == [0xC3 as char, 0xA9 as char] && Utf8Chars(0x41) == "A"
  {
  }

  lemma LiteralIs(t: string, n: nat)
    requires |t| == 8 && t[0] == '\"' && t[1] == '\\' && t[2] == 'u' && Writes(t, 3, n) && t[7] == '\"'
    requires 0 < n && !(0xD800 <= n <= 0xDFFF)
    ensures n < 0x10000 && ParseString(t, 0) == Some((Utf8Chars(n), 8))
  {
    Fits(t, 3, n);
    hide *;
    LiteralIsUtf8(t, n);
    JsonUnicode.StandsForIff(ParseString(t, 0).value.0, n);
  }

  /** A pair of surrogates escaped in the text, the u of the first at i. */
  predicate PairAt(t: string, i: nat) {
    && At(t, i) == 'u' && Hex4(t, i + 1) && At(t, i + 5) == '\\' && At(t, i + 6) == 'u' && Hex4(t, i + 7)
    && 0xD800 <= ScanUnicode(t, i + 1) <= 0xDBFF && 0xDC00 <= ScanUnicode(t, i + 7) <= 0xDFFF
  }

  /**
   The parser ORs where it should add: the text of a pair is read as the UTF-8 of its code point
   exactly when bit 6 of the high half is clear.
   */
  lemma SurrogatesIff(t: string, i: nat, hi: nat, lo: nat)
    requires i <= |t| && At(t, i) == 'u' && Writes(t, i + 1, hi) && 0xD800 <= hi <= 0xDBFF
    requires At(t, i + 5) == '\\' && At(t, i + 6) == 'u' && Writes(t, i + 7, lo) && 0xDC00 <= lo <= 0xDFFF
    ensures Unescape(t, i).1 == i + 11
    ensures JsonUnicode.StandsFor(Unescape(t, i).0, Utf16Pair(hi, lo)) <==> hi / 0x40 % 2 == 0
  {
    hide ScanUnicode, Utf8Chars, Hex4, JoinSurrogates, Utf16Pair, Writes, JsonUnicode.StandsFor;
    Scanned(t, i + 1, hi);
    Scanned(t, i + 7, lo);
    JoinIff(hi, lo);
    PairRange(hi, lo);
    assert Unescape(t, i) == (Utf8Chars(JoinSurrogates(hi, lo)), i + 11);
    JsonUnicode.StandsForIff(Unescape(t, i).0, Utf16Pair(hi, lo));
    if Utf8Chars(JoinSurrogates(hi, lo)) == Utf8Chars(Utf16Pair(hi, lo)) {
      Utf8CharsInjective(JoinSurrogates(hi, lo), Utf16Pair(hi, lo));
    }
  }

  lemma PairRange(hi: nat, lo: nat)
    requires 0xD800 <= hi <= 0xDBFF && 0xDC00 <= lo <= 0xDFFF
    ensures 0x10000 <= Utf16Pair(hi, lo) < 0x11_0000
  {
  }

  /** A literal that is one escaped pair. */
  lemma PairLiteral(t: string)
    requires |t| == 14 && t[0] == '\"' && t[1] == '\\' && PairAt(t, 2) && t[13] == '\"'
    ensures ParseString(t, 0) ==
      Some((Utf8Chars(JoinSurrogates(ScanUnicode(t, 3), ScanUnicode(t, 9))), 14))
  {
    hide Utf8Chars, ScanUnicode, JoinSurrogates, Hex4;
    var u := Utf8Chars(JoinSurrogates(ScanUnicode(t, 3), ScanUnicode(t, 9)));
    assert Unescape(t, 2) == (u, 13);
    assert StringBody(t, 13) == ("", 13);
    hide Unescape;
    assert StringBody(t, 1) == (u + "", 13) && u + "" == u;
  }

  /** The literal of U+20000 is read as U+10000. */
  lemma SurrogateExample()
    ensures var t := "\"\\ud840\\udc00\"";
            Utf16Pair(0xD840, 0xDC00) == 0x20000 &&
            ParseString(t, 0) == Some((Utf8Chars(0x10000), 14)) && Utf8Chars(0x10000) != Utf8Chars(0x20000)
  {
    var t := "\"\\ud840\\udc00\"";
    assert At(t, 2) == 'u' && At(t, 3) == 'd' && At(t, 4) == '8' && At(t, 5) == '4' && At(t, 6) == '0';
    assert At(t, 7) == '\\' && At(t, 8) == 'u' && At(t, 9) == 'd' && At(t, 10) == 'c' && At(t, 11) == '0' && At(t, 12) == '0';
    assert ScanUnicode(t, 3) == 0xD840 && ScanUnicode(t, 9) == 0xDC00;
    assert JoinSurrogates(0xD840, 0xDC00) == 0x10000;
    PairLiteral(t);
    if Utf8Chars(0x10000) == Utf8Chars(0x20000) {
      Utf8CharsInjective(0x10000, 0x20000);
    }
  }
}
