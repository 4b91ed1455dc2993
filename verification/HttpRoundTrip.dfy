/** Parameter lists written with any blanks in any place, and read back by HttpParams. */
module HttpRoundTrip {
  import opened Bytes
  import opened Wrappers
  import opened HttpParams

  // ----- the grammar of sections 2.2 and 3.6 of RFC 2616 --------------------------------------

  /** *LWS, where LWS is [CRLF] 1*( SP | HT ) */
  predicate IsGap(g: string)
    decreases |g|
  {
    g == "" || (IsWhitespaceChar(g[0]) && IsGap(g[1..])) || (Folds(g) && IsGap(g[3..]))
  }

  predicate IsToken(s: string) { s != "" && forall i :: 0 <= i < |s| ==> IsTokenChar(s[i]) }

  datatype Value = Blank | Token(t: string) | QuotedText(v: string)

  /** An attribute and the blanks before its name, behind its name, before its value and behind its value. */
  datatype Attribute = Attribute(before: string, name: string, after: string, value: Value, gap: string, last: string)

  /** A parameter and the blanks before and behind its name. */
  datatype Param = Param(before: string, name: string, after: string, attributes: seq<Attribute>)

  predicate EndsInBackslash(v: string) { v != "" && v[|v| - 1] == BACKSLASH }

  predicate GoodValue(v: Value) {
    match v
    case Blank => true
    case Token(t) => IsToken(t)
    case QuotedText(s) => !EndsInBackslash(s)
  }

  predicate GoodAttribute(a: Attribute) {
    IsGap(a.before) && IsToken(a.name) && IsGap(a.after) && GoodValue(a.value) && IsGap(a.gap) && IsGap(a.last)
  }

  predicate Good(p: Param) {
    IsGap(p.before) && IsToken(p.name) && IsGap(p.after) &&
    forall i :: 0 <= i < |p.attributes| ==> GoodAttribute(p.attributes[i])
  }

  function Escape(v: string): string {
    if v == "" then "" else (if v[0] == QUOTE then [BACKSLASH, QUOTE] else [v[0]]) + Escape(v[1..])
  }

  function ValueText(v: Value): string {
    match v
    case Blank => ""
    case Token(t) => t
    case QuotedText(s) => [QUOTE] + (Escape(s) + [QUOTE])
  }

  /** An attribute and then rest; likewise below. */
  function AttributeText(a: Attribute, rest: string): string {
    a.before + (a.name + (a.after + (if a.value.Blank? then rest else "=" + (a.gap + (ValueText(a.value) + (a.last + rest))))))
  }

  function AttributesText(attrs: seq<Attribute>, rest: string): string {
    if attrs == [] then rest else ";" + AttributeText(attrs[0], AttributesText(attrs[1..], rest))
  }

  function ParamsText(ps: seq<Param>): string
    requires ps != []
  {
    ps[0].before + (ps[0].name + (ps[0].after +
      AttributesText(ps[0].attributes, if |ps| == 1 then "" else "," + ParamsText(ps[1..]))))
  }

  // ----- what was written ------------------------------------------------------------------------

  function Written(v: Value): string {
    match v
    case Blank => ""
    case Token(t) => t
    case QuotedText(s) => s
  }

  /** A later attribute of the same name replaces an earlier one. */
  function Collected(attrs: seq<Attribute>, m: Attributes): Attributes {
    if attrs == [] then m else Collected(attrs[1..], m[attrs[0].name := Written(attrs[0].value)])
  }

  function Parameters(ps: seq<Param>): seq<Parameter> {
    if ps == [] then [] else [Parameter(ps[0].name, Collected(ps[0].attributes, map[]))] + Parameters(ps[1..])
  }

  // ----- blanks and tokens -------------------------------------------------------------------------

  /** No blank starts here. */
  predicate Solid(t: string) { t == "" || (!IsWhitespaceChar(t[0]) && !Folds(t)) }

  lemma {:induction false} SkipWsGap(g: string, t: string)
    requires IsGap(g) && Solid(t)
    ensures var h := SkipWs(g); IsGap(h) && SkipWs(g + t) == h + t && (g != "" && !Folds(g) ==> |h| < |g|)
    decreases |g|
  {
    if g == "" {
      assert g + t == t && SkipWs(t) == t;
    } else if IsWhitespaceChar(g[0]) {
      assert (g + t)[0] == g[0] && (g + t)[1..] == g[1..] + t;
      SkipWsGap(g[1..], t);
    } else {
      assert (g + t)[0] == g[0];
    }
  }

  lemma SkipLwsGap(g: string, t: string)
    requires IsGap(g) && Solid(t)
    ensures var h := SkipLws(g); IsGap(h) && SkipLws(g + t) == h + t && (g != "" ==> |h| < |g|)
  {
    if Folds(g) {
      assert (g + t)[0] == g[0] && (g + t)[1] == g[1] && (g + t)[2] == g[2] && (g + t)[3..] == g[3..] + t;
      SkipWsGap(g[3..], t);
    } else {
      SkipWsGap(g, t);
      if g != "" {
        assert (g + t)[0] == g[0];
      } else {
        assert g + t == t;
      }
    }
  }

  lemma {:induction false} SkipGap(g: string, t: string)
    requires IsGap(g) && Solid(t)
    ensures SkipAll(g + t) == t
    decreases |g|
  {
    hide SkipLws, IsGap;
    SkipLwsGap(g, t);
    var h := SkipLws(g);
    if g == "" {
      assert g + t == t && h == "" && h + t == t;
    } else {
      assert |h + t| < |g + t|;
      if h + t == "" {
        assert t == "";
      } else {
        SkipGap(h, t);
      }
    }
  }

  /** No token goes on here. */
  predicate NoToken(t: string) { t == "" || !IsTokenChar(t[0]) }

  lemma {:induction false} TokenBack(name: string, t: string)
    requires (forall i :: 0 <= i < |name| ==> IsTokenChar(name[i])) && NoToken(t)
    ensures TokenLen(name + t) == |name| && (name + t)[..|name|] == name && (name + t)[|name|..] == t
    decreases |name|
  {
    if name == "" {
      assert name + t == t;
    } else {
      assert (name + t)[0] == name[0] && (name + t)[1..] == name[1..] + t;
      TokenBack(name[1..], t);
    }
  }

  /** What follows a token when a gap and then no token comes. */
  lemma GapNoToken(g: string, t: string)
    requires IsGap(g) && NoToken(t)
    ensures NoToken(g + t)
  {
    if g != "" {
      assert (g + t)[0] == g[0];
    } else {
      assert g + t == t;
    }
  }

  lemma TokenSolid(name: string, t: string)
    requires IsToken(name)
    ensures Solid(name + t) && (name + t) != "" && (name + t)[0] == name[0] && IsTokenChar(name[0])
  {
  }

  // ----- quoted strings -------------------------------------------------------------------------------

  lemma EscapeCons(c: char, v: string)
    ensures Escape([c] + v) == (if c == QUOTE then [BACKSLASH, QUOTE] else [c]) + Escape(v)
    ensures FindQuote([c] + v) == if c == QUOTE then 0 else 1 + FindQuote(v)
  {
    assert ([c] + v)[1..] == v;
  }

  lemma ConsPieces(c: char, w: string, k: nat)
    requires k < |w|
    ensures ([c] + w)[..k + 1] == [c] + w[..k] && ([c] + w)[k + 2..] == w[k + 1..]
  {
  }

  lemma {:induction false} EscapeSplit(v: string)
    ensures var k := FindQuote(v);
            Escape(v) == if k == |v| then v else v[..k] + ([BACKSLASH, QUOTE] + Escape(v[k + 1..]))
    decreases |v|
  {
    if v != "" {
      hide *;
      var c, w := v[0], v[1..];
      assert v == [c] + w;
      EscapeCons(c, w);
      if c == QUOTE {
        assert v[..0] + ([BACKSLASH, QUOTE] + Escape(w)) == [BACKSLASH, QUOTE] + Escape(w);
      } else {
        EscapeSplit(w);
        var k := FindQuote(w);
        if k < |w| {
          var y := [BACKSLASH, QUOTE] + Escape(w[k + 1..]);
          Assoc([c], w[..k], y);
          ConsPieces(c, w, k);
        }
      }
    }
  }

  lemma {:induction false} FindQuoteAt(a: string, t: string)
    requires FindQuote(a) == |a|
    ensures FindQuote(a + ([QUOTE] + t)) == |a|
    decreases |a|
  {
    if a == "" {
      assert a + ([QUOTE] + t) == [QUOTE] + t;
    } else {
      assert (a + ([QUOTE] + t))[1..] == a[1..] + ([QUOTE] + t);
      FindQuoteAt(a[1..], t);
    }
  }

  lemma {:induction false} NoQuoteBefore(v: string)
    ensures FindQuote(v[..FindQuote(v)]) == FindQuote(v)
    ensures FindQuote(v[..FindQuote(v)] + [BACKSLASH]) == FindQuote(v) + 1
    decreases |v|
  {
    if v != "" && v[0] != QUOTE {
      NoQuoteBefore(v[1..]);
      var k := FindQuote(v);
      assert v[..k][1..] == v[1..][..k - 1] && (v[..k] + [BACKSLASH])[1..] == v[1..][..k - 1] + [BACKSLASH];
    } else {
      assert v[..0] + [BACKSLASH] == [BACKSLASH] && [BACKSLASH][1..] == "";
    }
  }

  lemma LastPiece(v: string, t: string, acc: string)
    requires FindQuote(v) == |v|
    ensures var r := QuotedRest(v + ([QUOTE] + t), acc);
            if EndsInBackslash(v) then r.Some? ==> |r.value.1| < |t|
            else r == Some((acc + v, t))
  {
    hide FindQuote;
    FindQuoteAt(v, t);
    var text := v + ([QUOTE] + t);
    assert text[..|v|] == v && text[|v| + 1..] == t;
    assert v != "" ==> text[|v| - 1] == v[|v| - 1];
  }

  lemma EscapedPiece(a: string, rest: string, acc: string)
    requires FindQuote(a + [BACKSLASH]) == |a| + 1
    ensures QuotedRest(a + ([BACKSLASH, QUOTE] + rest), acc) == QuotedRest(rest, acc + a + [QUOTE])
  {
    hide FindQuote;
    FindQuoteAt(a + [BACKSLASH], rest);
    var text := a + ([BACKSLASH, QUOTE] + rest);
    assert text == (a + [BACKSLASH]) + ([QUOTE] + rest);
    assert text[|a|] == BACKSLASH && text[..|a|] == a && text[|a| + 2..] == rest;
  }

  /** Reading goes on to the closing quote, or past it when the value ends in a backslash. */
  lemma {:induction false} QuotedBack(v: string, t: string, acc: string)
    ensures var r := QuotedRest(Escape(v) + ([QUOTE] + t), acc);
            if EndsInBackslash(v) then r.Some? ==> |r.value.1| < |t|
            else r == Some((acc + v, t))
    decreases |v|
  {
    hide FindQuote, Escape, QuotedRest;
    var k := FindQuote(v);
    EscapeSplit(v);
    NoQuoteBefore(v);
    if k == |v| {
      assert v[..k] == v;
      LastPiece(v, t, acc);
    } else {
      var a, b := v[..k], v[k + 1..];
      var rest := Escape(b) + ([QUOTE] + t);
      assert Escape(v) + ([QUOTE] + t) == a + ([BACKSLASH, QUOTE] + rest);
      EscapedPiece(a, rest, acc);
      QuotedBack(b, t, acc + a + [QUOTE]);
      assert v == a + [QUOTE] + b;
      assert acc + a + [QUOTE] + b == acc + v;
      assert b != "" ==> v[|v| - 1] == b[|b| - 1];
    }
  }

  /** extract_quoted_string undoes quoting exactly when the value does not end in a backslash. */
  lemma QuotedIff(v: string, t: string)
    ensures Quoted([QUOTE] + (Escape(v) + ([QUOTE] + t))) == Some((v, t)) <==> !EndsInBackslash(v)
  {
    hide QuotedRest, Escape;
    QuotedBack(v, t, "");
    var text := [QUOTE] + (Escape(v) + ([QUOTE] + t));
    assert text[1..] == Escape(v) + ([QUOTE] + t) && "" + v == v;
  }

  // ----- attributes ------------------------------------------------------------------------------------

  /** What may follow a parameter: its end or a comma. */
  predicate Follows(t: string) { t == "" || t[0] == ',' }

  /** What may follow an attribute. */
  predicate FollowsAttribute(t: string) { t == "" || t[0] == ',' || t[0] == ';' }

  lemma FollowsSolid(t: string)
    requires FollowsAttribute(t)
    ensures Solid(t) && NoToken(t) && (t == "" || t[0] != '=')
  {
  }

  lemma AttributesFollow(attrs: seq<Attribute>, rest: string)
    requires Follows(rest)
    ensures FollowsAttribute(AttributesText(attrs, rest))
  {
  }

  /** Reading the value of an attribute leaves what follows, behind a gap. */
  lemma ValueBack(a: Attribute, rest: string)
    requires GoodAttribute(a) && FollowsAttribute(rest)
    ensures
      var t := a.after + if a.value.Blank? then rest else "=" + (a.gap + (ValueText(a.value) + (a.last + rest)));
      AttributeValue(t) == Some((Written(a.value), if a.value.Blank? then rest else a.last + rest))
      && NoToken(t)
  {
    FollowsSolid(rest);
    if a.value.Blank? {
      BlankBack(a.after, rest);
    } else {
      var v := ValueText(a.value) + (a.last + rest);
      GivenText(a, rest);
      GivenBack(a.after, a.gap, v);
    }
  }

  lemma BlankBack(g: string, rest: string)
    requires IsGap(g) && Solid(rest) && NoToken(rest) && (rest == "" || rest[0] != '=')
    ensures AttributeValue(g + rest) == Some(("", rest)) && NoToken(g + rest)
  {
    hide SkipAll, IsGap, IsTokenChar;
    SkipGap(g, rest);
    GapNoToken(g, rest);
  }

  /** The value read from v, which starts with no blank. */
  function ValueAt(v: string): Option<(string, string)> {
    if v == "" then None
    else if Quoted(v).Some? then Quoted(v)
    else if TokenLen(v) == 0 then None
    else Some((v[..TokenLen(v)], v[TokenLen(v)..]))
  }

  lemma GivenBack(g: string, h: string, v: string)
    requires IsGap(g) && IsGap(h) && Solid(v)
    ensures AttributeValue(g + ("=" + (h + v))) == ValueAt(v) && NoToken(g + ("=" + (h + v)))
  {
    hide SkipAll, IsGap, Quoted, TokenLen;
    var u := "=" + (h + v);
    assert u[0] == '=' && u[1..] == h + v;
    SkipGap(g, u);
    SkipGap(h, v);
    GapNoToken(g, u);
  }

  lemma GivenText(a: Attribute, rest: string)
    requires GoodValue(a.value) && !a.value.Blank? && IsGap(a.last) && NoToken(rest)
    ensures var v := ValueText(a.value) + (a.last + rest);
            Solid(v) && ValueAt(v) == Some((Written(a.value), a.last + rest))
  {
    hide IsGap, QuotedRest, TokenLen, Escape;
    var t := a.last + rest;
    GapNoToken(a.last, rest);
    match a.value
    case Token(s) =>
      TokenBack(s, t);
      TokenSolid(s, t);
    case QuotedText(s) =>
      QuotedIff(s, t);
      assert ValueText(a.value) + t == [QUOTE] + (Escape(s) + ([QUOTE] + t));
  }

  /** The attribute loop stands before the attribute a. */
  predicate AtRound(t: string, first: bool, a: Attribute, rest: string) {
    var u := SkipAll(t);
    && t != "" && u != "" && (first || u[0] == ';')
    && (if first then u else u[1..]) == if first then SkipAll(AttributeText(a, rest)) else AttributeText(a, rest)
  }

  /** One round of the attribute loop, from the name on. */
  lemma NameBack(a: Attribute, rest: string, first: bool, m: Attributes, t: string)
    requires GoodAttribute(a) && FollowsAttribute(rest)
    requires AtRound(t, first, a, rest)
    ensures ReadAttributes(t, first, m) ==
      ReadAttributes(if a.value.Blank? then rest else a.last + rest, false, m[a.name := Written(a.value)])
  {
    hide SkipAll, AttributeValue, IsGap, TokenLen, ValueText;
    ValueBack(a, rest);
    var x := a.after + if a.value.Blank? then rest else "=" + (a.gap + (ValueText(a.value) + (a.last + rest)));
    TokenSolid(a.name, x);
    SkipGap(a.before, a.name + x);
    SkipTwice(AttributeText(a, rest));
    TokenBack(a.name, x);
    assert a.name != "";
  }

  /** The attributes behind a gap, until what follows the parameter. */
  lemma {:induction false} AttributesBack(attrs: seq<Attribute>, g: string, rest: string, m: Attributes)
    requires IsGap(g) && Follows(rest) && forall i :: 0 <= i < |attrs| ==> GoodAttribute(attrs[i])
    ensures ReadAttributes(g + AttributesText(attrs, rest), false, m) == (Collected(attrs, m), Some(rest))
    decreases |attrs|
  {
    hide SkipAll, IsGap, AttributeValue, TokenLen;
    var text := AttributesText(attrs, rest);
    AttributesFollow(attrs, rest);
    FollowsSolid(text);
    SkipGap(g, text);
    if attrs != [] {
      var a, tail := attrs[0], AttributesText(attrs[1..], rest);
      AttributesFollow(attrs[1..], rest);
      assert text[1..] == AttributeText(a, tail);
      NameBack(a, tail, false, m, g + text);
      var next := m[a.name := Written(a.value)];
      if a.value.Blank? {
        assert "" + tail == tail;
        GapNone();
        AttributesBack(attrs[1..], "", rest, next);
      } else {
        AttributesBack(attrs[1..], a.last, rest, next);
      }
    }
  }

  /** The attributes of a parameter behind the first semicolon. */
  lemma FirstBack(attrs: seq<Attribute>, rest: string)
    requires attrs != [] && Follows(rest) && forall i :: 0 <= i < |attrs| ==> GoodAttribute(attrs[i])
    ensures var t := AttributeText(attrs[0], AttributesText(attrs[1..], rest));
            t != "" && ReadAttributes(t, true, map[]) == (Collected(attrs, map[]), Some(rest))
  {
    var a, tail := attrs[0], AttributesText(attrs[1..], rest);
    var t := AttributeText(a, tail);
    AttributesFollow(attrs[1..], rest);
    FirstShape(a, tail);
    NameBack(a, tail, true, map[], t);
    hide ReadAttributes, SkipAll, AttributeText;
    var next: Attributes := map[a.name := Written(a.value)];
    if a.value.Blank? {
      assert "" + tail == tail;
      AttributesBack(attrs[1..], "", rest, next);
    } else {
      AttributesBack(attrs[1..], a.last, rest, next);
    }
  }

  lemma FirstShape(a: Attribute, rest: string)
    requires GoodAttribute(a)
    ensures AttributeText(a, rest) != "" && SkipAll(AttributeText(a, rest)) != ""
  {
    hide SkipAll, IsGap;
    var x := a.after + if a.value.Blank? then rest else "=" + (a.gap + (ValueText(a.value) + (a.last + rest)));
    TokenSolid(a.name, x);
    SkipGap(a.before, a.name + x);
  }

  // ----- parameters --------------------------------------------------------------------------------------

  lemma ParameterBack(p: Param, rest: string)
    requires Good(p) && Follows(rest)
    ensures ReadParameter(p.name + (p.after + AttributesText(p.attributes, rest))) ==
      Some((Parameter(p.name, Collected(p.attributes, map[])), rest))
  {
    hide SkipAll, IsGap, TokenLen, ReadAttributes, AttributeText;
    var text := AttributesText(p.attributes, rest);
    AttributesFollow(p.attributes, rest);
    FollowsSolid(text);
    GapNoToken(p.after, text);
    TokenBack(p.name, p.after + text);
    SkipGap(p.after, text);
    SkipGap("", rest) by { FollowsSolid(rest); assert IsGap("") by { GapNone(); } }
    assert "" + rest == rest;
    if p.attributes != [] {
      FirstBack(p.attributes, rest);
      assert text[0] == ';' && text[1..] == AttributeText(p.attributes[0], AttributesText(p.attributes[1..], rest));
    }
  }

  lemma GapNone()
    ensures IsGap("")
  {
  }

  lemma {:induction false} ParametersBack(ps: seq<Param>, done: seq<Parameter>)
    requires ps != [] && forall i :: 0 <= i < |ps| ==> Good(ps[i])
    ensures ParamsText(ps) != "" && ReadParameters(ParamsText(ps), done) == (done + Parameters(ps), Some(""))
    decreases |ps|
  {
    hide SkipAll, ReadParameter, Good, AttributesText;
    var p, rest := ps[0], if |ps| == 1 then "" else "," + ParamsText(ps[1..]);
    var u := p.name + (p.after + AttributesText(p.attributes, rest));
    ParameterBack(p, rest);
    ParamShape(p, rest);
    var one := Parameter(p.name, Collected(p.attributes, map[]));
    if |ps| > 1 {
      ParametersBack(ps[1..], done + [one]);
      assert rest[1..] == ParamsText(ps[1..]);
      assert done + [one] + Parameters(ps[1..]) == done + ([one] + Parameters(ps[1..]));
    } else {
      assert Parameters(ps[1..]) == [];
      assert [one] + Parameters(ps[1..]) == [one];
    }
  }

  lemma ParamShape(p: Param, rest: string)
    requires Good(p)
    ensures var u := p.name + (p.after + AttributesText(p.attributes, rest));
            u != "" && p.before + u != "" && SkipAll(p.before + u) == u
  {
    hide SkipAll, IsGap;
    var x := p.after + AttributesText(p.attributes, rest);
    TokenSolid(p.name, x);
    SkipGap(p.before, p.name + x);
  }

  /** extract_parameters on a rendered list: the end of the text and exactly that list. */
  method RenderAndExtract(ps: seq<Param>) returns (cursor: nat, list: seq<Parameter>)
    requires ps != [] && forall i :: 0 <= i < |ps| ==> Good(ps[i])
    ensures cursor == |ParamsText(ps)| && list == Parameters(ps)
  {
    hide *;
    var text := ParamsText(ps);
    cursor, list := ExtractParameters(text, 0, []);
    ParametersBack(ps, []);
    assert text[0..] == text && [] + Parameters(ps) == Parameters(ps);
  }
}
