/**
 Exactly which texts cJSON reads as which trees: a grammar of positions in the text, with every
 blank, comma, colon and bracket in its place, and of what the escapes of a string stand for.
 */
module JsonGrammar {
  import opened Json
  import opened JsonRoundTrip
  import opened JsonSyntax
  import opened Wrappers
  import JsonUnicode

  // ----- blanks and strings -------------------------------------------------------------------------

  /** The blanks from i end at j. */
  predicate Blanks(t: string, i: nat, j: nat) {
    i <= j <= |t| && (forall k :: i <= k < j ==> 0 < t[k] as int <= 32) && (j < |t| ==> t[j] as int == 0 || t[j] as int > 32)
  }

  predicate Ends(t: string, i: nat) { i == |t| || (i < |t| && t[i] as int == 0) }

  predicate IsOne(s: string, code: nat) { |s| == 1 && s[0] as int == code }

  ghost predicate IsShort(c: char) { exists code: nat :: ShortEscape(c, code) }

  ghost predicate HasDigits(t: string, i: nat) { exists n: nat :: Writes(t, i, n) }

  /** The code point of a pair, less 0x10000 when bit 6 of the high half is set. */
  function PairRead(hi: nat, lo: nat): nat
    requires 0xD800 <= hi <= 0xDBFF && 0xDC00 <= lo <= 0xDFFF
  {
    Utf16Pair(hi, lo) - if hi / 0x40 % 2 == 0 then 0 else 0x10000
  }

  /** What a high surrogate whose digits end at i is read as, with what follows it. */
  ghost predicate PairEscaped(t: string, i: nat, hi: nat, out: string, next: nat)
    requires 0xD800 <= hi <= 0xDBFF
  {
    if !(i + 1 < |t| && t[i..i + 2] == "\\u" && HasDigits(t, i + 2)) then out == "" && next == i
    else exists lo: nat :: LowEscaped(t, i, hi, lo, out, next)
  }

  ghost predicate LowEscaped(t: string, i: nat, hi: nat, lo: nat, out: string, next: nat)
    requires 0xD800 <= hi <= 0xDBFF
  {
    && Writes(t, i + 2, lo) && next == i + 6
    && if 0xDC00 <= lo <= 0xDFFF then JsonUnicode.StandsFor(out, PairRead(hi, lo)) else out == ""
  }

  /** The number n was written behind \u; its digits end at i. */
  ghost predicate NumberEscaped(t: string, i: nat, n: nat, out: string, next: nat) {
    if n == 0 || 0xDC00 <= n <= 0xDFFF then out == "" && next == i
    else if 0xD800 <= n <= 0xDBFF then PairEscaped(t, i, n, out, next)
    else JsonUnicode.StandsFor(out, n) && next == i
  }

  /** What the characters from i on, behind a backslash, stand for, and where they end. */
  ghost predicate Escaped(t: string, i: nat, out: string, next: nat) {
    if i >= |t| || t[i] as int == 0 then out == "" && next == i
    else if IsShort(t[i]) then next == i + 1 && exists code: nat :: ShortEscape(t[i], code) && IsOne(out, code)
    else if t[i] != 'u' then out == [t[i]] && next == i + 1
    else if !HasDigits(t, i + 1) then out == "" && next == i + 1
    else exists n: nat :: DigitsEscaped(t, i, n, out, next)
  }

  ghost predicate DigitsEscaped(t: string, i: nat, n: nat, out: string, next: nat) {
    Writes(t, i + 1, n) && NumberEscaped(t, i + 5, n, out, next)
  }

  lemma ShortIs(t: string, i: nat) returns (code: nat)
    requires i < |t| && IsShort(t[i])
    ensures ShortEscape(t[i], code) && code < 0x80 && Unescape(t, i) == ([code as char], i + 1) && IsOne([code as char], code)
  {
    code :| ShortEscape(t[i], code);
    ShortEscapeRead(t, i, code);
  }

  lemma OneShort(c: char, a: nat, b: nat)
    requires ShortEscape(c, a) && ShortEscape(c, b)
    ensures a == b
  {
  }

  lemma NotShort(c: char)
    requires !IsShort(c)
    ensures c !in {'\"', '\\', '/', 'b', 'f', 'n', 'r', 't'}
  {
    assert ShortEscape('\"', 0x22) && ShortEscape('\\', 0x5C) && ShortEscape('/', 0x2F) && ShortEscape('b', 8);
    assert ShortEscape('f', 12) && ShortEscape('n', 10) && ShortEscape('r', 13) && ShortEscape('t', 9);
  }

  lemma DigitsIff(t: string, i: nat)
    ensures HasDigits(t, i) <==> Hex4(t, i)
  {
    if n: nat :| Writes(t, i, n) {
      Scanned(t, i, n);
    }
    if Hex4(t, i) {
      Scanned(t, i, ScanUnicode(t, i));
    }
  }

  lemma OneNumber(t: string, i: nat, m: nat, n: nat)
    requires Writes(t, i, m) && Writes(t, i, n)
    ensures m == n
  {
    Scanned(t, i, m);
    Scanned(t, i, n);
  }

  lemma PairIs(hi: nat, lo: nat)
    requires 0xD800 <= hi <= 0xDBFF && 0xDC00 <= lo <= 0xDFFF
    ensures JoinSurrogates(hi, lo) == PairRead(hi, lo) && 0x10000 <= PairRead(hi, lo) <= 0x10FFFF
  {
    var x := (hi % 0x400) * 0x400 + lo % 0x400;
    assert hi % 0x400 == hi - 0xD800 && lo % 0x400 == lo - 0xDC00;
    assert x / 0x10000 == (hi % 0x400) / 0x40;
  }

  lemma PairEscapedIff(t: string, i: nat, hi: nat, out: string, next: nat)
    requires 5 <= i <= |t| && At(t, i - 5) == 'u' && Writes(t, i - 4, hi) && 0xD800 <= hi <= 0xDBFF
    ensures PairEscaped(t, i, hi, out, next) <==> Unescape(t, i - 5) == (out, next)
  {
    hide Writes, Hex4, ScanUnicode, Utf8Chars, JoinSurrogates, PairRead, Utf16Pair, JsonUnicode.StandsFor;
    Scanned(t, i - 4, hi);
    DigitsIff(t, i + 2);
    hide HasDigits;
    BackslashU(t, i);
    if At(t, i) == '\\' && At(t, i + 1) == 'u' && Hex4(t, i + 2) {
      var lo := ScanUnicode(t, i + 2);
      Scanned(t, i + 2, lo);
      if 0xDC00 <= lo <= 0xDFFF {
        PairIs(hi, lo);
        JsonUnicode.StandsForIff(out, PairRead(hi, lo));
      }
      assert LowEscaped(t, i, hi, lo, out, next) <==> Unescape(t, i - 5) == (out, next);
      if other: nat :| LowEscaped(t, i, hi, other, out, next) {
        OneNumber(t, i + 2, lo, other);
      }
    }
  }

  lemma BackslashU(t: string, i: nat)
    ensures (i + 1 < |t| && t[i..i + 2] == "\\u") <==> At(t, i) == '\\' && At(t, i + 1) == 'u'
  {
    if i + 1 < |t| {
      assert t[i..i + 2] == [t[i], t[i + 1]];
    }
  }

  lemma NumberEscapedIff(t: string, i: nat, n: nat, out: string, next: nat)
    requires i < |t| && t[i] == 'u' && Writes(t, i + 1, n)
    ensures i + 5 <= |t| && (NumberEscaped(t, i + 5, n, out, next) <==> Unescape(t, i) == (out, next))
  {
    hide Hex4, ScanUnicode, Utf8Chars, JsonUnicode.StandsFor, PairEscaped, WritesDigit;
    Scanned(t, i + 1, n);
    if 0xD800 <= n <= 0xDBFF {
      PairEscapedIff(t, i + 5, n, out, next);
    } else if 0 < n && !(0xDC00 <= n <= 0xDFFF) {
      JsonUnicode.StandsForIff(out, n);
    }
  }

  /** Every escape is read as what it stands for, and as nothing else. */
  lemma EscapedIff(t: string, i: nat, out: string, next: nat)
    requires i <= |t|
    ensures Escaped(t, i, out, next) <==> Unescape(t, i) == (out, next)
  {
    hide Unescape, ShortEscape, Writes, NumberEscaped, Hex4;
    if i == |t| || t[i] as int == 0 {
      NothingBehind(t, i);
    } else if IsShort(t[i]) {
      var code := ShortIs(t, i);
      if other: nat :| ShortEscape(t[i], other) && IsOne(out, other) {
        OneShort(t[i], code, other);
        assert out == [code as char];
      }
    } else {
      NotShort(t[i]);
      DigitsIff(t, i + 1);
      Plain(t, i);
      if t[i] == 'u' && HasDigits(t, i + 1) {
        var n: nat :| Writes(t, i + 1, n);
        NumberEscapedIff(t, i, n, out, next);
        assert DigitsEscaped(t, i, n, out, next) <==> Unescape(t, i) == (out, next);
        if m: nat :| DigitsEscaped(t, i, m, out, next) {
          OneNumber(t, i + 1, m, n);
        }
      }
    }
  }

  lemma NothingBehind(t: string, i: nat)
    requires i <= |t| && (i == |t| || t[i] as int == 0)
    ensures Unescape(t, i) == ("", i)
  {
  }

  lemma Plain(t: string, i: nat)
    requires i < |t| && t[i] as int != 0 && t[i] !in {'b', 'f', 'n', 'r', 't'}
    ensures t[i] != 'u' ==> Unescape(t, i) == ([t[i]], i + 1)
    ensures t[i] == 'u' && !Hex4(t, i + 1) ==> Unescape(t, i) == ("", i + 1)
  {
    hide Hex4;
  }

  /** The characters of a literal from i on are s, up to the quote or the end of the text at e. */
  ghost predicate Chars(t: string, i: nat, s: string, e: nat)
    requires i <= |t|
    decreases |t| - i
  {
    if Ends(t, i) || t[i] == '\"' then s == "" && e == i
    else if t[i] != '\\' then s != "" && s[0] == t[i] && Chars(t, i + 1, s[1..], e)
    else exists k: nat, next: nat :: i < next <= |t| && k <= |s| && Escaped(t, i + 1, s[..k], next) && Chars(t, next, s[k..], e)
  }

  lemma {:induction false} CharsIff(t: string, i: nat, s: string, e: nat)
    requires i <= |t|
    ensures Chars(t, i, s, e) <==> StringBody(t, i) == (s, e)
    decreases |t| - i
  {
    hide Escaped, Unescape;
    if Ends(t, i) || t[i] == '\"' {
    } else if t[i] != '\\' {
      var rest := StringBody(t, i + 1);
      CharsIff(t, i + 1, rest.0, rest.1);
      if s != "" {
        CharsIff(t, i + 1, s[1..], e);
      }
      assert s != "" ==> s == [s[0]] + s[1..];
    } else {
      var (out, next) := Unescape(t, i + 1);
      var rest := StringBody(t, next);
      EscapedIff(t, i + 1, out, next);
      CharsIff(t, next, rest.0, rest.1);
      if StringBody(t, i) == (s, e) {
        assert s[..|out|] == out && s[|out|..] == rest.0;
      }
      if k: nat, n: nat :| i < n <= |t| && k <= |s| && Escaped(t, i + 1, s[..k], n) && Chars(t, n, s[k..], e) {
        EscapedIff(t, i + 1, s[..k], n);
        CharsIff(t, n, s[k..], e);
        assert s == s[..k] + s[k..];
      }
    }
  }

  lemma {:induction false} BodyEnd(t: string, i: nat)
    requires i <= |t|
    ensures var e := StringBody(t, i).1; At(t, e) == '\"' || At(t, e) == NUL
    decreases |t| - i
  {
    hide Unescape;
    var c := At(t, i);
    if c != '\"' && c != NUL {
      BodyEnd(t, if c == '\\' then Unescape(t, i + 1).1 else i + 1);
    }
  }

  /** A string literal from i to e: through its closing quote, or to the end of the text. */
  ghost predicate Literal(t: string, i: nat, s: string, e: nat) {
    i < |t| && t[i] == '\"' &&
    ((e > 0 && e <= |t| && t[e - 1] == '\"' && Chars(t, i + 1, s, e - 1)) || (e <= |t| && Ends(t, e) && Chars(t, i + 1, s, e)))
  }

  lemma LiteralIff(t: string, i: nat, s: string, e: nat)
    requires i <= |t|
    ensures Literal(t, i, s, e) <==> ParseString(t, i) == Some((s, e))
  {
    hide Chars, StringBody;
    if i < |t| && t[i] == '\"' {
      CharsIff(t, i + 1, s, e);
      if e > 0 {
        CharsIff(t, i + 1, s, e - 1);
      }
      BodyEnd(t, i + 1);
    }
  }

  // ----- values ---------------------------------------------------------------------------------------

  /** t has c at i. */
  predicate Has(t: string, i: nat, c: char) { i < |t| && t[i] == c }

  predicate WordAt(t: string, i: nat, e: nat, word: string) { i <= e <= |t| && t[i..e] == word }

  /** The value v stands in the text from i to e. */
  ghost predicate Reads(t: string, i: nat, v: Json, e: nat)
    decreases v, 2
  {
    match v
    case Null => WordAt(t, i, e, "null")
    case True => WordAt(t, i, e, "true")
    case False => WordAt(t, i, e, "false")
    case Str(s) => Literal(t, i, s, e)
    case Number(d) => i < |t| && (t[i] == '-' || '0' <= t[i] <= '9') && ParseNumber(t, i) == (d, e)
    case Array(items) =>
      Has(t, i, '[') && if items == [] then Closes(t, i + 1, ']', e) else ItemsRead(t, i + 1, items, e)
    case Object(ms) =>
      Has(t, i, '{') && if ms == [] then Closes(t, i + 1, '}', e) else MembersRead(t, i + 1, ms, e)
  }

  /** Blanks from i on, and then the bracket that ends at e. */
  predicate Closes(t: string, i: nat, c: char, e: nat) { 0 < e && Blanks(t, i, e - 1) && Has(t, e - 1, c) }

  /** Blanks, a value, blanks and a comma for each of the elements, but a closing bracket behind the last. */
  ghost predicate ItemsRead(t: string, i: nat, items: seq<Json>, e: nat)
    requires items != []
    decreases items, 0
  {
    exists f: nat, g: nat :: Blanks(t, i, f) && Reads(t, f, items[0], g) && ItemsThen(t, g, items, e)
  }

  ghost predicate ItemsThen(t: string, g: nat, items: seq<Json>, e: nat)
    requires items != []
    decreases items[1..], 1
  {
    if |items| == 1 then Closes(t, g, ']', e)
    else exists c: nat :: Closes(t, g, ',', c) && ItemsRead(t, c, items[1..], e)
  }

  /** The same for members: blanks, a name, blanks, a colon, blanks, a value. */
  ghost predicate MembersRead(t: string, i: nat, ms: seq<Member>, e: nat)
    requires ms != []
    decreases ms, 0
  {
    exists f: nat, g: nat :: MemberRead(t, i, ms[0], f, g) && MembersThen(t, g, ms, e)
  }

  ghost predicate MembersThen(t: string, g: nat, ms: seq<Member>, e: nat)
    requires ms != []
    decreases ms[1..], 1
  {
    if |ms| == 1 then Closes(t, g, '}', e)
    else exists c: nat :: Closes(t, g, ',', c) && MembersRead(t, c, ms[1..], e)
  }

  ghost predicate MemberRead(t: string, i: nat, m: Member, f: nat, g: nat)
    decreases m, 3
  {
    NameRead(t, i, m.name, f) && exists h: nat :: Blanks(t, f, h) && Reads(t, h, m.value, g)
  }

  /** A name and the colon behind it, which ends at f. */
  ghost predicate NameRead(t: string, i: nat, name: string, f: nat) {
    exists a: nat, b: nat :: Blanks(t, i, a) && Literal(t, a, name, b) && Closes(t, b, ':', f)
  }

  // ----- what is read is what the grammar says ----------------------------------------------------------

  lemma SkipIff(t: string, i: nat, j: nat)
    requires i <= |t|
    ensures Blanks(t, i, j) <==> j == Skip(t, i)
  {
    var r := Skip(t, i);
    SkipIs(t, i);
    hide Skip;
  }

  lemma ClosesIff(t: string, i: nat, c: char, e: nat)
    requires i <= |t| && c as int > 32
    ensures Closes(t, i, c, e) <==> At(t, Skip(t, i)) == c && e == Skip(t, i) + 1
  {
    hide Skip, Blanks;
    if e > 0 {
      SkipIff(t, i, e - 1);
    }
  }

  lemma SkipTwice(t: string, i: nat)
    requires i <= |t|
    ensures Skip(t, Skip(t, i)) == Skip(t, i)
  {
    var r := Skip(t, i);
    SkipIff(t, i, r);
    SkipIff(t, r, r);
    hide Skip;
  }

  lemma WordIff(t: string, i: nat, e: nat, word: string)
    requires i <= |t| && word != ""
    ensures WordAt(t, i, e, word) <==> HasAt(t, i, word) && e == i + |word|
    ensures HasAt(t, i, word) ==> At(t, i) == word[0]
  {
    if HasAt(t, i, word) {
      Covers(t, i, word);
    }
    if WordAt(t, i, e, word) {
      assert |t[i..e]| == |word|;
      CoveredHas(t, i, word);
    }
  }

  lemma {:induction false} Covers(t: string, i: nat, s: string)
    requires HasAt(t, i, s)
    ensures t[i..i + |s|] == s
    decreases |s|
  {
    if s != "" {
      Covers(t, i + 1, s[1..]);
    }
  }

  lemma {:induction false} CoveredHas(t: string, i: nat, word: string)
    requires i + |word| <= |t| && t[i..i + |word|] == word
    ensures HasAt(t, i, word)
    decreases |word|
  {
    if word != "" {
      assert t[i] == t[i..i + |word|][0];
      assert t[i + 1..i + |word|] == t[i..i + |word|][1..];
      CoveredHas(t, i + 1, word[1..]);
    }
  }

  /** The value at i by its first character. */
  lemma ValueCases(t: string, i: nat)
    requires i <= |t|
    ensures HasAt(t, i, "null") ==> At(t, i) == 'n' && ParseValue(t, i) == Some((Null, i + 4))
    ensures HasAt(t, i, "true") ==> At(t, i) == 't' && ParseValue(t, i) == Some((True, i + 4))
    ensures HasAt(t, i, "false") ==> At(t, i) == 'f' && ParseValue(t, i) == Some((False, i + 5))
    ensures At(t, i) == '\"' ==>
      var r := ParseString(t, i); ParseValue(t, i) == if r.None? then None else Some((Str(r.value.0), r.value.1))
    ensures At(t, i) == '-' || IsDigit(At(t, i)) ==>
      ParseValue(t, i) == Some((Number(ParseNumber(t, i).0), ParseNumber(t, i).1))
    ensures At(t, i) == '[' ==>
      var p := Skip(t, i + 1);
      ParseValue(t, i) == if At(t, p) == ']' then Some((Array([]), p + 1))
                          else var r := ParseItems(t, p); if r.None? then None else Some((Array(r.value.0), r.value.1))
    ensures At(t, i) == '{' ==>
      var p := Skip(t, i + 1);
      ParseValue(t, i) == if At(t, p) == '}' then Some((Object([]), p + 1))
                          else var r := ParseMembers(t, p); if r.None? then None else Some((Object(r.value.0), r.value.1))
    ensures ParseValue(t, i).Some? ==>
      HasAt(t, i, "null") || HasAt(t, i, "true") || HasAt(t, i, "false") || At(t, i) in {'\"', '-', '[', '{'} || IsDigit(At(t, i))
  {
    hide ParseItems, ParseMembers, ParseNumber, ParseString, Skip, HasAt;
    WordIff(t, i, 0, "null");
    WordIff(t, i, 0, "true");
    WordIff(t, i, 0, "false");
  }

  lemma SomeItems(t: string, i: nat)
    requires i <= |t|
    ensures ParseItems(t, i).Some? ==> ParseItems(t, i).value.0 != []
    ensures ParseMembers(t, i).Some? ==> ParseMembers(t, i).value.0 != []
  {
    hide ParseValue, Skip, ParseMember;
  }

  lemma SkippedItems(t: string, i: nat)
    requires i <= |t|
    ensures ParseItems(t, Skip(t, i)) == ParseItems(t, i)
  {
    hide ParseValue, Skip;
    SkipTwice(t, i);
  }

  lemma SkippedMembers(t: string, i: nat)
    requires i <= |t|
    ensures ParseMembers(t, Skip(t, i)) == ParseMembers(t, i)
  {
    hide ParseMembers, Skip;
    SkippedMember(t, i);
    SameMembers(t, i, Skip(t, i));
  }

  lemma SameMembers(t: string, i: nat, j: nat)
    requires i <= |t| && j <= |t| && ParseMember(t, i) == ParseMember(t, j)
    ensures ParseMembers(t, i) == ParseMembers(t, j)
  {
    hide ParseMember, At;
  }

  lemma SkippedMember(t: string, i: nat)
    requires i <= |t|
    ensures ParseMember(t, Skip(t, i)) == ParseMember(t, i)
  {
    hide ParseMember, Skip;
    SkipTwice(t, i);
    SameMember(t, i, Skip(t, i));
  }

  lemma SameMember(t: string, i: nat, j: nat)
    requires i <= |t| && j <= |t| && Skip(t, i) == Skip(t, j)
    ensures ParseMember(t, i) == ParseMember(t, j)
  {
    hide ParseValue, Skip, ParseString, At;
  }

  lemma NoItems(t: string, i: nat)
    requires i <= |t|
    ensures At(t, Skip(t, i)) == ']' ==> ParseItems(t, i) == None
    ensures At(t, Skip(t, i)) == '}' ==> ParseMembers(t, i) == None
  {
    var p := Skip(t, i);
    ValueCases(t, p);
    WordIff(t, p, 0, "null");
    hide ParseValue, Skip, ParseString, HasAt;
    if At(t, p) != '\"' {
      NoString(t, p);
    }
  }

  lemma NoString(t: string, p: nat)
    requires p <= |t| && At(t, p) != '\"'
    ensures ParseString(t, p) == None
  {
  }

  /** A value is read, from i to e, if and only if it stands there. */
  lemma {:induction false} ReadIff(t: string, i: nat, v: Json, e: nat)
    requires i <= |t|
    ensures Reads(t, i, v, e) <==> ParseValue(t, i) == Some((v, e))
    decreases v, 2
  {
    hide ParseValue, ParseItems, ParseMembers, ParseNumber, ParseString, Skip, HasAt, Reads;
    if v.Array? {
      if v.items != [] && i < |t| {
        ItemsIff(t, i + 1, v.items, e);
      }
      ArrayIff(t, i, v.items, e);
    } else if v.Object? {
      if v.members != [] && i < |t| {
        MembersIff(t, i + 1, v.members, e);
      }
      ObjectIff(t, i, v.members, e);
    } else {
      PlainIff(t, i, v, e);
    }
  }

  lemma PlainIff(t: string, i: nat, v: Json, e: nat)
    requires i <= |t| && !v.Array? && !v.Object?
    ensures Reads(t, i, v, e) <==> ParseValue(t, i) == Some((v, e))
  {
    hide ParseValue, ParseItems, ParseMembers, ParseNumber, ParseString, Skip, HasAt, Literal, WordAt;
    ValueCases(t, i);
    match v
    case Null => WordIff(t, i, e, "null");
    case True => WordIff(t, i, e, "true");
    case False => WordIff(t, i, e, "false");
    case Str(s) =>
      LiteralIff(t, i, s, e);
      LiteralStart(t, i, s, e);
    case Number(d) =>
  }

  lemma ArrayIff(t: string, i: nat, items: seq<Json>, e: nat)
    requires i <= |t|
    requires items != [] && i < |t| ==> (ItemsRead(t, i + 1, items, e) <==> ParseItems(t, i + 1) == Some((items, e)))
    ensures Reads(t, i, Array(items), e) <==> ParseValue(t, i) == Some((Array(items), e))
  {
    hide ParseValue, ParseItems, ParseMembers, ParseNumber, ParseString, Skip, HasAt, Closes, ItemsRead;
    ValueCases(t, i);
    if At(t, i) == '[' {
      SomeItems(t, i + 1);
      SkippedItems(t, i + 1);
      NoItems(t, i + 1);
      ClosesIff(t, i + 1, ']', e);
    }
  }

  lemma ObjectIff(t: string, i: nat, ms: seq<Member>, e: nat)
    requires i <= |t|
    requires ms != [] && i < |t| ==> (MembersRead(t, i + 1, ms, e) <==> ParseMembers(t, i + 1) == Some((ms, e)))
    ensures Reads(t, i, Object(ms), e) <==> ParseValue(t, i) == Some((Object(ms), e))
  {
    hide ParseValue, ParseItems, ParseMembers, ParseNumber, ParseString, Skip, HasAt, Closes, MembersRead;
    ValueCases(t, i);
    if At(t, i) == '{' {
      SomeItems(t, i + 1);
      SkippedMembers(t, i + 1);
      NoItems(t, i + 1);
      ClosesIff(t, i + 1, '}', e);
    }
  }

  lemma LiteralStart(t: string, i: nat, s: string, e: nat)
    ensures Literal(t, i, s, e) ==> At(t, i) == '\"'
  {
  }

  lemma {:induction false} ItemsIff(t: string, i: nat, items: seq<Json>, e: nat)
    requires i <= |t| && items != []
    ensures ItemsRead(t, i, items, e) <==> ParseItems(t, i) == Some((items, e))
    decreases items, 0
  {
    hide ParseValue, Skip, Reads, Closes, ItemsThen, Blanks;
    var f := Skip(t, i);
    SkipIff(t, i, f);
    if ParseItems(t, i) == Some((items, e)) {
      var v := ParseValue(t, f).value;
      ReadIff(t, f, items[0], v.1);
      ItemsThenIff(t, v.1, items, e);
    }
    if x: nat, g: nat :| Blanks(t, i, x) && Reads(t, x, items[0], g) && ItemsThen(t, g, items, e) {
      SkipIff(t, i, x);
      ReadIff(t, f, items[0], g);
      ItemsThenIff(t, g, items, e);
      assert items == [items[0]] + items[1..] && (|items| == 1 ==> items == [items[0]]);
    }
  }

  /** What follows an element. */
  lemma {:induction false} ItemsThenIff(t: string, g: nat, items: seq<Json>, e: nat)
    requires g <= |t| && items != []
    ensures
      var p := Skip(t, g);
      ItemsThen(t, g, items, e) <==>
        if |items| == 1 then At(t, p) == ']' && e == p + 1 else At(t, p) == ',' && ParseItems(t, p + 1) == Some((items[1..], e))
    decreases items[1..], 1
  {
    hide ParseItems, Skip, Closes, ItemsRead;
    var p := Skip(t, g);
    if |items| == 1 {
      ClosesIff(t, g, ']', e);
    } else {
      ClosesIff(t, g, ',', p + 1);
      if At(t, p) == ',' {
        ItemsIff(t, p + 1, items[1..], e);
      }
      if c: nat :| Closes(t, g, ',', c) && ItemsRead(t, c, items[1..], e) {
        ClosesIff(t, g, ',', c);
      }
    }
  }

  lemma {:induction false} MembersIff(t: string, i: nat, ms: seq<Member>, e: nat)
    requires i <= |t| && ms != []
    ensures MembersRead(t, i, ms, e) <==> ParseMembers(t, i) == Some((ms, e))
    decreases ms, 0
  {
    hide ParseMember, ParseValue, Skip, MemberRead, Closes, MembersThen;
    if ParseMembers(t, i) == Some((ms, e)) {
      var m := ParseMember(t, i).value;
      MemberIff(t, i, ms[0]);
      var f: nat, g: nat :| MemberRead(t, i, ms[0], f, g) && g <= |t| && Skip(t, g) == m.1;
      MembersThenIff(t, g, ms, e);
    }
    if f: nat, g: nat :| MemberRead(t, i, ms[0], f, g) && MembersThen(t, g, ms, e) {
      MemberBack(t, i, ms[0], f, g);
      MembersThenIff(t, g, ms, e);
      assert ms == [ms[0]] + ms[1..] && (|ms| == 1 ==> ms == [ms[0]]);
    }
  }

  lemma {:induction false} MembersThenIff(t: string, g: nat, ms: seq<Member>, e: nat)
    requires g <= |t| && ms != []
    ensures
      var p := Skip(t, g);
      MembersThen(t, g, ms, e) <==>
        if |ms| == 1 then At(t, p) == '}' && e == p + 1 else At(t, p) == ',' && ParseMembers(t, p + 1) == Some((ms[1..], e))
    decreases ms[1..], 1
  {
    hide ParseMembers, Skip, Closes, MembersRead;
    var p := Skip(t, g);
    if |ms| == 1 {
      ClosesIff(t, g, '}', e);
    } else {
      ClosesIff(t, g, ',', p + 1);
      if At(t, p) == ',' {
        MembersIff(t, p + 1, ms[1..], e);
      }
      if c: nat :| Closes(t, g, ',', c) && MembersRead(t, c, ms[1..], e) {
        ClosesIff(t, g, ',', c);
      }
    }
  }

  /** A member that is read stands there. */
  lemma {:induction false} MemberIff(t: string, i: nat, m: Member)
    requires i <= |t| && ParseMember(t, i).Some? && ParseMember(t, i).value.0 == m
    ensures exists f: nat, g: nat :: MemberRead(t, i, m, f, g) && g <= |t| && Skip(t, g) == ParseMember(t, i).value.1
    decreases m, 3
  {
    hide ParseValue, ParseString, Skip, Reads, Literal, Closes, Blanks;
    var a := Skip(t, i);
    var name := ParseString(t, a).value;
    var f := Skip(t, name.1) + 1;
    SkipIff(t, i, a);
    LiteralIff(t, a, name.0, name.1);
    ClosesIff(t, name.1, ':', f);
    assert NameRead(t, i, m.name, f);
    var h := Skip(t, f);
    SkipIff(t, f, h);
    var v := ParseValue(t, h).value;
    ReadIff(t, h, m.value, v.1);
    assert MemberRead(t, i, m, f, v.1);
  }

  lemma {:induction false} MemberBack(t: string, i: nat, m: Member, f: nat, g: nat)
    requires i <= |t| && MemberRead(t, i, m, f, g)
    ensures g <= |t| && ParseMember(t, i) == Some((m, Skip(t, g)))
    decreases m, 3
  {
    hide ParseValue, ParseString, Skip, Reads, Literal, Closes, Blanks;
    var a: nat, b: nat :| Blanks(t, i, a) && Literal(t, a, m.name, b) && Closes(t, b, ':', f);
    var h: nat :| Blanks(t, f, h) && Reads(t, h, m.value, g);
    SkipIff(t, i, a);
    LiteralIff(t, a, m.name, b);
    ClosesIff(t, b, ':', f);
    SkipIff(t, f, h);
    ReadIff(t, h, m.value, g);
  }

  ghost predicate StandsIn(t: string, v: Json, i: nat, e: nat) { Blanks(t, 0, i) && Reads(t, i, v, e) }

  /** cJSON_Parse gives a tree if and only if it stands behind the blanks the text begins with; what follows is ignored. */
  lemma ParseIff(t: string, v: Json)
    ensures Parse(t) == Some(v) <==> exists i: nat, e: nat :: StandsIn(t, v, i, e)
  {
    hide ParseValue, Reads, Skip, Blanks;
    var i := Skip(t, 0);
    SkipIff(t, 0, i);
    if Parse(t) == Some(v) {
      var e := ParseValue(t, i).value.1;
      ReadIff(t, i, v, e);
      assert StandsIn(t, v, i, e);
    }
    if j: nat, e: nat :| StandsIn(t, v, j, e) {
      SkipIff(t, 0, j);
      ReadIff(t, j, v, e);
    }
  }
}
