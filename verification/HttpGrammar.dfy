/**
 Which texts the parameter list parser takes, which it rejects, and what it reads from them:
 every text is taken apart into parameters, blanks and either a proper end or a flaw.
 */
module HttpGrammar {
  import opened Bytes
  import opened Wrappers
  import opened HttpParams
  import opened HttpRoundTrip

  // ----- characters ------------------------------------------------------------------------------

  /** Blanks are spaces and tabs, and a line break folds when a blank follows it. */
  lemma BlankIs(c: char, t: string)
    ensures IsWhitespaceChar(c) <==> c == ' ' || c == '\t'
    ensures Folds(t) <==> |t| > 2 && t[..2] == "\r\n" && (t[2] == ' ' || t[2] == '\t')
  {
    if |t| > 2 {
      assert t[..2] == [t[0], t[1]];
    }
  }

  /** Quoting puts a backslash before every quote and nothing else. */
  lemma QuotingIs(c: char, v: string)
    ensures Escape("") == "" && Escape([c] + v) == (if c == '\"' then "\\\"" else [c]) + Escape(v)
    ensures EndsInBackslash(v + [c]) <==> c == '\\'
  {
    EscapeCons(c, v);
  }

  // ----- the grammar -----------------------------------------------------------------------------

  predicate AllGood(ps: seq<Param>) { forall i :: 0 <= i < |ps| ==> Good(ps[i]) }

  /** A parameter and then rest. */
  function ParamText(p: Param, rest: string): string {
    p.before + (p.name + (p.after + AttributesText(p.attributes, rest)))
  }

  /** Parameters with a comma behind each, and then last. */
  function ListText(ps: seq<Param>, last: string): string {
    if ps == [] then last else ParamText(ps[0], "," + ListText(ps[1..], last))
  }

  /**
   A proper end: nothing but blanks, though not nothing at all behind a comma; a parameter; or
   a parameter without attributes, a semicolon and at least one blank.
   */
  ghost predicate Complete(last: string, ps: seq<Param>, q: seq<Param>) {
    || (q == [] && IsGap(last) && (ps == [] || last != ""))
    || (|q| == 1 && Good(q[0]) && last == ParamText(q[0], ""))
    || (|q| == 1 && Good(q[0]) && q[0].attributes == [] && exists g :: OpenEnd(last, q[0], g))
  }

  predicate OpenEnd(last: string, p: Param, g: string) { g != "" && IsGap(g) && last == ParamText(p, ";" + g) }

  /** No token and no blank. */
  predicate Bare(u: string) { Solid(u) && NoToken(u) }

  /** A quoted string with its closing quote begins here. */
  ghost predicate StartsQuoted(v: string) { exists x: string, r: string :: QuotedAs(v, x, r) }

  predicate QuotedAs(v: string, x: string, r: string) {
    !EndsInBackslash(x) && v == "\"" + (Escape(x) + ("\"" + r))
  }

  /** No name behind a semicolon, or no value behind an equals sign. */
  ghost predicate BadAttribute(f: string) {
    || (exists g: string, u: string :: BadName(f, g, u))
    || (exists a: Attribute, v: string :: BadValue(f, a, v))
  }

  predicate BadName(f: string, g: string, u: string) { IsGap(g) && Bare(u) && f == ";" + (g + u) }

  ghost predicate BadValue(f: string, a: Attribute, v: string) {
    && IsGap(a.before) && IsToken(a.name) && IsGap(a.after) && IsGap(a.gap) && Bare(v) && !StartsQuoted(v)
    && f == ";" + (a.before + (a.name + (a.after + ("=" + (a.gap + v)))))
  }

  /** What a text ends in that is rejected. */
  ghost predicate Flawed(last: string, ps: seq<Param>) {
    || (last == "" && ps != [])
    || (exists g: string, u: string :: NoName(last, g, u))
    || (exists p: Param, f: string :: FlawedParam(last, p, f))
  }

  predicate NoName(last: string, g: string, u: string) { IsGap(g) && Bare(u) && u != "" && last == g + u }

  /** Blanks at the end behind the first semicolon are no flaw. */
  ghost predicate FlawedParam(last: string, p: Param, f: string) {
    && Good(p) && BadAttribute(f) && last == ParamText(p, f)
    && (p.attributes == [] ==> !OpenBlank(f))
  }

  ghost predicate OpenBlank(f: string) { exists g: string :: g != "" && IsGap(g) && f == ";" + g }

  /** The attribute k is the last of its name. */
  predicate LastNamed(attrs: seq<Attribute>, k: nat) {
    k < |attrs| && forall i :: k < i < |attrs| ==> attrs[i].name != attrs[k].name
  }

  /** A name has the value of the last attribute that bears it. */
  lemma {:induction false} LastValue(attrs: seq<Attribute>, m: Attributes, k: nat)
    requires LastNamed(attrs, k)
    ensures var c := Collected(attrs, m); attrs[k].name in c && c[attrs[k].name] == Written(attrs[k].value)
    decreases |attrs|
  {
    var next := m[attrs[0].name := Written(attrs[0].value)];
    if k > 0 {
      LastValue(attrs[1..], next, k - 1);
    } else {
      OtherNames(attrs[1..], next, attrs[0].name);
    }
  }

  /** And no other name has one. */
  lemma {:induction false} OtherNames(attrs: seq<Attribute>, m: Attributes, name: string)
    requires forall i :: 0 <= i < |attrs| ==> attrs[i].name != name
    ensures var c := Collected(attrs, m); (name in c <==> name in m) && (name in m ==> c[name] == m[name])
    decreases |attrs|
  {
    if attrs != [] {
      OtherNames(attrs[1..], m[attrs[0].name := Written(attrs[0].value)], name);
    }
  }

  // ----- texts of the grammar are read so ----------------------------------------------------------

  lemma {:induction false} ListBack(ps: seq<Param>, last: string, done: seq<Parameter>)
    requires AllGood(ps)
    ensures last != "" ==> ReadParameters(ListText(ps, last), done) == ReadParameters(last, done + Parameters(ps))
    ensures last == "" && ps != [] ==> ReadParameters(ListText(ps, last), done) == (done + Parameters(ps), None)
    ensures last != "" || ps != [] ==> ListText(ps, last) != ""
    decreases |ps|
  {
    hide SkipAll, ReadParameter, Good, AttributesText;
    if ps == [] {
      assert done + Parameters(ps) == done;
    } else {
      var p, more := ps[0], ListText(ps[1..], last);
      var rest := "," + more;
      ParameterBack(p, rest);
      ParamShape(p, rest);
      assert rest[1..] == more;
      var one := Parameter(p.name, Collected(p.attributes, map[]));
      ListBack(ps[1..], last, done + [one]);
      assert done + [one] + Parameters(ps[1..]) == done + Parameters(ps);
      if |ps| == 1 {
        assert ps[1..] == [] && Parameters(ps) == [one];
      }
    }
  }

  lemma SkipSolid(t: string)
    requires Solid(t)
    ensures SkipAll(t) == t
  {
    hide SkipAll, Solid;
    SkipGap("", t);
    assert "" + t == t;
  }

  /** A parameter up to the first semicolon. */
  lemma HeadBack(p: Param, w: string, done: seq<Parameter>)
    requires Good(p) && w != "" && w[0] == ';'
    ensures
      var t := p.before + (p.name + (p.after + w));
      t != "" && ReadParameters(t, done) ==
        if w[1..] == "" then (done, None)
        else
          var a := ReadAttributes(w[1..], true, map[]);
          if a.1.None? then (done, None)
          else
            var all, v := done + [Parameter(p.name, a.0)], SkipAll(a.1.value);
            if v == "" || v[0] != ',' then (all, Some(v))
            else if v[1..] == "" then (all, None)
            else ReadParameters(v[1..], all)
  {
    hide SkipAll, IsGap, TokenLen, ReadAttributes;
    var x := p.after + w;
    GapNoToken(p.after, w);
    TokenSolid(p.name, x);
    SkipGap(p.before, p.name + x);
    TokenBack(p.name, x);
    SkipGap(p.after, w);
  }

  lemma OpenBack(p: Param, g: string, done: seq<Parameter>)
    requires Good(p) && p.attributes == [] && g != "" && IsGap(g)
    ensures ReadParameters(ParamText(p, ";" + g), done) == (done + [Parameter(p.name, map[])], Some(""))
  {
    hide SkipAll, IsGap, ReadParameters;
    var w := ";" + g;
    HeadBack(p, w, done);
    assert w[1..] == g && g + "" == g;
    SkipGap(g, "");
    SkipSolid("");
  }

  lemma FirstIs(t: string, m: Attributes)
    requires t != "" && SkipAll(t) != ""
    ensures ReadAttributes(t, true, m) == ReadAttributes(";" + t, false, m)
  {
    hide SkipAll, AttributeValue, TokenLen;
    SkipTwice(t);
    SkipSolid(";" + t);
    assert (";" + t)[1..] == t;
  }

  /** The attributes read, and then what is left of the text from the next semicolon on. */
  lemma {:induction false} AttributesThen(attrs: seq<Attribute>, g: string, f: string, m: Attributes)
    requires IsGap(g) && f != "" && f[0] == ';' && forall i :: 0 <= i < |attrs| ==> GoodAttribute(attrs[i])
    ensures ReadAttributes(g + AttributesText(attrs, f), false, m) == ReadAttributes(f, false, Collected(attrs, m))
    decreases |attrs|
  {
    hide SkipAll, IsGap, AttributeValue, TokenLen;
    var text := AttributesText(attrs, f);
    FollowsSolid(text);
    SkipGap(g, text);
    if attrs == [] {
      SkipSolid(f);
    } else {
      var a, tail := attrs[0], AttributesText(attrs[1..], f);
      assert text[1..] == AttributeText(a, tail);
      NameBack(a, tail, false, m, g + text);
      var next := m[a.name := Written(a.value)];
      if a.value.Blank? {
        assert "" + tail == tail;
        GapNone();
        AttributesThen(attrs[1..], "", f, next);
      } else {
        AttributesThen(attrs[1..], a.last, f, next);
      }
    }
  }

  lemma BadNameRead(f: string, g: string, u: string, m: Attributes)
    requires BadName(f, g, u)
    ensures ReadAttributes(f, false, m) == (m, None)
  {
    hide SkipAll, IsGap, Solid;
    SkipGap(g, u);
    SkipSolid(f) by { assert Solid(f) by { SolidSemicolon(f); } }
    assert f[1..] == g + u;
  }

  lemma SolidSemicolon(f: string)
    requires f != "" && f[0] == ';'
    ensures Solid(f)
  {
  }

  lemma BadValueRead(f: string, a: Attribute, v: string, m: Attributes)
    requires BadValue(f, a, v)
    ensures ReadAttributes(f, false, m) == (m, None)
  {
    hide SkipAll, IsGap, Quoted, TokenLen, AttributeValue, StartsQuoted;
    SolidSemicolon(f);
    SkipSolid(f);
    var x := a.after + ("=" + (a.gap + v));
    assert f[1..] == a.before + (a.name + x);
    GivenBack(a.after, a.gap, v);
    NoValueAt(v);
    TokenSolid(a.name, x);
    SkipGap(a.before, a.name + x);
    TokenBack(a.name, x);
    assert a.name != "";
  }

  lemma NoValueAt(v: string)
    requires NoToken(v) && !StartsQuoted(v)
    ensures ValueAt(v) == None
  {
    if Quoted(v).Some? {
      QuotedOf(v);
    }
  }

  lemma FlawBack(p: Param, f: string, done: seq<Parameter>)
    requires Good(p) && BadAttribute(f) && (p.attributes == [] ==> !OpenBlank(f))
    ensures ReadParameters(ParamText(p, f), done) == (done, None)
  {
    hide SkipAll, IsGap, ReadParameters, Quoted, TokenLen, AttributeText;
    assert f != "" && f[0] == ';';
    var w := AttributesText(p.attributes, f);
    HeadBack(p, w, done);
    if w[1..] != "" {
      FlawNotBlank(p.attributes, f);
      FirstIs(w[1..], map[]);
      assert ";" + w[1..] == w && "" + w == w;
      GapNone();
      AttributesThen(p.attributes, "", f, map[]);
      BadRead(f, Collected(p.attributes, map[]));
    }
  }

  lemma BadRead(f: string, m: Attributes)
    requires BadAttribute(f)
    ensures ReadAttributes(f, false, m) == (m, None)
  {
    if g: string, u: string :| BadName(f, g, u) {
      BadNameRead(f, g, u, m);
    } else {
      var a: Attribute, v: string :| BadValue(f, a, v);
      BadValueRead(f, a, v, m);
    }
  }

  lemma FlawNotBlank(attrs: seq<Attribute>, f: string)
    requires (forall i :: 0 <= i < |attrs| ==> GoodAttribute(attrs[i])) && f != "" && f[0] == ';'
    requires attrs == [] ==> !OpenBlank(f)
    ensures var w := AttributesText(attrs, f); w[1..] != "" ==> SkipAll(w[1..]) != ""
  {
    hide SkipAll, IsGap, AttributeText;
    var w := AttributesText(attrs, f);
    if attrs == [] {
      GapOf(w[1..]);
      assert f == ";" + f[1..];
    } else {
      assert w[1..] == AttributeText(attrs[0], AttributesText(attrs[1..], f));
      FirstShape(attrs[0], AttributesText(attrs[1..], f));
    }
  }

  // ----- what is read was a text of the grammar ------------------------------------------------------

  /** The blanks a text begins with. */
  function Gap(t: string): string { t[..|t| - |SkipAll(t)|] }

  lemma {:induction false} WsOf(t: string)
    ensures var u := SkipWs(t); t == t[..|t| - |u|] + u && IsGap(t[..|t| - |u|])
    decreases |t|
  {
    if t != "" && IsWhitespaceChar(t[0]) {
      WsOf(t[1..]);
      var u := SkipWs(t);
      var g := t[..|t| - |u|];
      assert g[1..] == t[1..][..|t| - 1 - |u|];
      assert t == [t[0]] + t[1..];
    } else {
      assert t[..0] == "";
    }
  }

  lemma FoldedGap(t: string, h: string, u: string)
    requires Folds(t) && IsGap(h) && t[3..] == h + u
    ensures IsGap(t[..3] + h) && t == (t[..3] + h) + u && t[..|t| - |u|] == t[..3] + h
  {
    assert t == t[..3] + t[3..];
    assert (t[..3] + h)[3..] == h;
  }

  lemma LwsOf(t: string)
    ensures var u := SkipLws(t); t == t[..|t| - |u|] + u && IsGap(t[..|t| - |u|])
  {
    hide IsGap, SkipWs, Folds;
    var u := SkipLws(t);
    if Folds(t) {
      FoldsLength(t);
      WsOf(t[3..]);
      FoldedGap(t, t[3..][..|t| - 3 - |u|], u);
    } else {
      WsOf(t);
    }
  }

  lemma FoldsLength(t: string)
    requires Folds(t)
    ensures |t| > 2
  {
  }

  lemma LwsSolid(t: string)
    requires SkipLws(t) == t
    ensures Solid(t)
  {
  }

  lemma {:induction false} GapAppend(g: string, h: string)
    requires IsGap(g) && IsGap(h)
    ensures IsGap(g + h)
    decreases |g|
  {
    if g == "" {
      assert g + h == h;
    } else if IsWhitespaceChar(g[0]) {
      assert (g + h)[0] == g[0] && (g + h)[1..] == g[1..] + h;
      GapAppend(g[1..], h);
    } else {
      assert (g + h)[0] == g[0] && (g + h)[1] == g[1] && (g + h)[2] == g[2] && (g + h)[3..] == g[3..] + h;
      GapAppend(g[3..], h);
    }
  }

  lemma {:induction false} GapOf(t: string)
    ensures t == Gap(t) + SkipAll(t) && IsGap(Gap(t)) && Solid(SkipAll(t))
    ensures Solid(t) ==> Gap(t) == ""
    decreases |t|
  {
    hide SkipLws, IsGap;
    LwsOf(t);
    var u := SkipLws(t);
    if u == t {
      LwsSolid(t);
    } else if u != "" {
      GapOf(u);
      GapAppend(t[..|t| - |u|], Gap(u));
      assert Gap(t) == t[..|t| - |u|] + Gap(u);
    }
    if Solid(t) {
      SkipSolid(t);
    }
  }

  lemma {:induction false} TokenOf(t: string)
    ensures var n := TokenLen(t);
            (forall i :: 0 <= i < n ==> IsTokenChar(t[i])) && NoToken(t[n..]) && t == t[..n] + t[n..]
    decreases |t|
  {
    if t != "" && IsTokenChar(t[0]) {
      TokenOf(t[1..]);
      var n := TokenLen(t[1..]);
      forall i | 0 <= i < n + 1 ensures IsTokenChar(t[i]) {
        assert i > 0 ==> t[i] == t[1..][i - 1];
      }
      assert t[1..][n..] == t[n + 1..];
    }
  }

  lemma {:induction false} EscapeNoQuote(a: string, b: string)
    requires FindQuote(a) == |a|
    ensures Escape(a + b) == a + Escape(b)
    decreases |a|
  {
    if a == "" {
      assert a + b == b;
    } else {
      assert (a + b)[0] == a[0] && (a + b)[1..] == a[1..] + b;
      EscapeNoQuote(a[1..], b);
      assert a == [a[0]] + a[1..];
    }
  }

  lemma EscapedPieceOf(a: string, y: string, r: string)
    requires FindQuote(a) == |a|
    ensures Escape(a + ([QUOTE] + y)) + ([QUOTE] + r) == a + ([BACKSLASH, QUOTE] + (Escape(y) + ([QUOTE] + r)))
  {
    hide FindQuote, Escape;
    EscapeNoQuote(a, [QUOTE] + y);
    EscapeCons(QUOTE, y);
  }

  lemma LastPieceOf(a: string, r: string)
    requires FindQuote(a) == |a|
    ensures Escape(a) + ([QUOTE] + r) == a + ([QUOTE] + r)
  {
    hide FindQuote, Escape;
    EscapeNoQuote(a, "");
    EscapeNone();
    assert a + "" == a;
  }

  /** x was read from t behind acc, and r is left. */
  predicate QuotedIs(t: string, acc: string, x: string, r: string) {
    acc <= x && !EndsInBackslash(x) && t == Escape(x[|acc|..]) + ([QUOTE] + r)
  }

  lemma MorePieces(t: string, acc: string, q: nat, x: string, r: string)
    requires 0 < q < |t| && FindQuote(t[..q - 1]) == q - 1 && t[q - 1] == BACKSLASH && t[q] == QUOTE
    requires QuotedIs(t[q + 1..], acc + t[..q - 1] + [QUOTE], x, r)
    ensures QuotedIs(t, acc, x, r)
  {
    hide FindQuote, Escape;
    var a, y := t[..q - 1], x[|acc| + q..];
    assert x[|acc|..] == a + ([QUOTE] + y);
    EscapedPieceOf(a, y, r);
    assert t == a + ([BACKSLASH, QUOTE] + t[q + 1..]);
  }

  lemma OnePiece(t: string, acc: string, q: nat)
    requires q < |t| && FindQuote(t[..q]) == q && t[q] == QUOTE
    requires !EndsInBackslash(acc) && (q > 0 ==> t[q - 1] != BACKSLASH)
    ensures QuotedIs(t, acc, acc + t[..q], t[q + 1..])
  {
    hide FindQuote, Escape;
    var a := t[..q];
    LastPieceOf(a, t[q + 1..]);
    assert (acc + a)[|acc|..] == a;
    assert t == a + ([QUOTE] + t[q + 1..]);
    assert if a != "" then (acc + a)[|acc + a| - 1] == t[q - 1] else acc + a == acc;
  }

  lemma {:induction false} QuotedRestOf(t: string, acc: string)
    requires QuotedRest(t, acc).Some? && !EndsInBackslash(acc)
    ensures QuotedIs(t, acc, QuotedRest(t, acc).value.0, QuotedRest(t, acc).value.1)
    decreases |t|
  {
    hide FindQuote, QuotedIs;
    var q := FindQuote(t);
    NoQuoteBefore(t);
    if q > 0 && t[q - 1] == BACKSLASH {
      QuotedRestOf(t[q + 1..], acc + t[..q - 1] + [QUOTE]);
      FrontNoQuote(t[..q], q - 1);
      assert t[..q][..q - 1] == t[..q - 1];
      var r := QuotedRest(t, acc).value;
      MorePieces(t, acc, q, r.0, r.1);
    } else {
      OnePiece(t, acc, q);
    }
  }

  lemma EscapeNone()
    ensures Escape("") == ""
  {
  }

  lemma {:induction false} FrontNoQuote(a: string, n: nat)
    requires FindQuote(a) == |a| && n <= |a|
    ensures FindQuote(a[..n]) == n
    decreases |a|
  {
    if n > 0 {
      FrontNoQuote(a[1..], n - 1);
      assert a[..n][1..] == a[1..][..n - 1];
    }
  }

  lemma QuotedOf(v: string)
    requires Quoted(v).Some?
    ensures QuotedAs(v, Quoted(v).value.0, Quoted(v).value.1)
  {
    hide QuotedRest, Escape;
    QuotedRestOf(v[1..], "");
    var r := Quoted(v).value;
    assert r.0[0..] == r.0 && v == [QUOTE] + v[1..];
  }

  lemma QuotedNone(v: string)
    requires Quoted(v).None?
    ensures !StartsQuoted(v)
  {
    hide Quoted, Escape;
    if x: string, r: string :| QuotedAs(v, x, r) {
      QuotedIff(x, r);
    }
  }

  lemma SkipParts(t: string)
    ensures t == Gap(t) + SkipAll(t) && IsGap(Gap(t)) && Solid(SkipAll(t)) && (Solid(t) ==> Gap(t) == "")
  {
    GapOf(t);
  }

  /** t is the part of an attribute behind its name, with this value, and rest. */
  predicate ValueParts(a: Attribute, t: string, value: string, rest: string) {
    && IsGap(a.after) && GoodValue(a.value) && IsGap(a.gap) && Written(a.value) == value
    && t == a.after + (if a.value.Blank? then rest else "=" + (a.gap + (ValueText(a.value) + rest)))
    && (a.value.Blank? ==> Solid(rest))
  }

  ghost predicate NoValueParts(a: Attribute, t: string, v: string) {
    IsGap(a.after) && IsGap(a.gap) && Bare(v) && !StartsQuoted(v) && t == a.after + ("=" + (a.gap + v))
  }

  function AttributeOf(after: string, value: Value, gap: string): Attribute { Attribute("", "", after, value, gap, "") }

  lemma ValueOf(t: string) returns (a: Attribute, v: string)
    ensures AttributeValue(t).Some? ==> ValueParts(a, t, AttributeValue(t).value.0, AttributeValue(t).value.1)
    ensures AttributeValue(t).None? ==> NoValueParts(a, t, v)
  {
    hide SkipAll, IsGap, Gap, Quoted, TokenLen, StartsQuoted, Escape;
    GapNone();
    SkipParts(t);
    var u := SkipAll(t);
    a, v := AttributeOf(Gap(t), Blank, ""), "";
    if u != "" && u[0] == '=' {
      SkipParts(u[1..]);
      v := SkipAll(u[1..]);
      var gap := Gap(u[1..]);
      assert u == "=" + (gap + v);
      var value := GivenOf(v);
      a := AttributeOf(Gap(t), value, gap);
    }
  }

  /** The value that is read at v, which starts with no blank. */
  lemma GivenOf(v: string) returns (value: Value)
    requires Solid(v)
    ensures var r := ValueAt(v);
            if r.Some? then
              !value.Blank? && GoodValue(value) && Written(value) == r.value.0 && v == ValueText(value) + r.value.1
            else NoToken(v) && !StartsQuoted(v)
  {
    hide Quoted, Escape, StartsQuoted, TokenLen;
    value := Blank;
    TokenOf(v);
    if Quoted(v).Some? {
      QuotedOf(v);
      value := QuotedText(Quoted(v).value.0);
    } else {
      QuotedNone(v);
      var n := TokenLen(v);
      if n > 0 {
        value := Token(v[..n]);
      } else {
        assert v[0..] == v;
      }
    }
  }

  /** Blanks, attributes, and then f, is what the attribute loop has read. */
  predicate AttributeParts(t: string, g: string, attrs: seq<Attribute>, f: string) {
    && IsGap(g) && (forall i :: 0 <= i < |attrs| ==> GoodAttribute(attrs[i]))
    && t == g + AttributesText(attrs, f) && (Solid(t) ==> g == "")
  }

  ghost predicate Ended(r: (Attributes, Option<string>), attrs: seq<Attribute>, m: Attributes, f: string) {
    if r.1.Some? then f == r.1.value && r.0 == Collected(attrs, m) && Solid(f) else BadAttribute(f)
  }

  lemma {:induction false} AttributesOf(t: string, m: Attributes) returns (g: string, attrs: seq<Attribute>, f: string)
    ensures AttributeParts(t, g, attrs, f) && Ended(ReadAttributes(t, false, m), attrs, m, f)
    decreases |t|
  {
    hide SkipAll, IsGap, Gap, TokenLen, AttributeValue, ValueParts, NoValueParts, BadAttribute, AttributesText, GoodAttribute;
    SkipParts(t);
    var u := SkipAll(t);
    g, attrs, f := Gap(t), [], u;
    NoAttributes(u);
    if u != "" && u[0] == ';' {
      SkipParts(u[1..]);
      var w, b := SkipAll(u[1..]), Gap(u[1..]);
      assert u == ";" + (b + w);
      var n := TokenLen(w);
      TokenOf(w);
      if n == 0 {
        assert w[0..] == w;
        BadNameIs(u, b, w);
      } else {
        var a, v := ValueOf(w[n..]);
        var r := AttributeValue(w[n..]);
        if r.None? {
          BadValueIs(u, b, w[..n], a, w[n..], v);
        } else {
          var next := m[w[..n] := r.value.0];
          var h, others, end := AttributesOf(r.value.1, next);
          var one := a.(before := b, name := w[..n], last := if a.value.Blank? then "" else h);
          attrs, f := [one] + others, end;
          OneMore(u, b, w[..n], w[n..], a, r.value.0, r.value.1, h, others, end, one);
          MoreRead(t, m, n, one, others, end);
        }
      }
    }
  }

  lemma NoAttributes(f: string)
    ensures AttributesText([], f) == f
  {
  }

  lemma BadNameIs(f: string, g: string, u: string)
    requires IsGap(g) && Solid(u) && NoToken(u) && f == ";" + (g + u)
    ensures BadAttribute(f)
  {
    hide IsGap;
    assert BadName(f, g, u);
  }

  lemma BadValueIs(f: string, b: string, name: string, a: Attribute, t: string, v: string)
    requires IsGap(b) && IsToken(name) && NoValueParts(a, t, v) && f == ";" + (b + (name + t))
    ensures BadAttribute(f)
  {
    hide IsGap, StartsQuoted;
    var one := a.(before := b, name := name);
    assert BadValue(f, one, v);
  }

  lemma MoreRead(t: string, m: Attributes, n: nat, one: Attribute, others: seq<Attribute>, f: string)
    requires SkipAll(t) != "" && SkipAll(t)[0] == ';'
    requires var w := SkipAll(SkipAll(t)[1..]); n == TokenLen(w) > 0 && one.name == w[..n]
    requires
      var v := AttributeValue(SkipAll(SkipAll(t)[1..])[n..]);
      v.Some? && v.value.0 == Written(one.value) && Ended(ReadAttributes(v.value.1, false, m[one.name := v.value.0]), others, m[one.name := v.value.0], f)
    ensures Ended(ReadAttributes(t, false, m), [one] + others, m, f)
  {
    hide SkipAll, TokenLen, AttributeValue, BadAttribute, Written, Solid;
    assert ([one] + others)[1..] == others;
  }

  lemma OneMore(u: string, b: string, name: string, t: string, a: Attribute, value: string, rest: string,
                h: string, others: seq<Attribute>, f: string, one: Attribute)
    requires IsGap(b) && IsToken(name) && u == ";" + (b + (name + t)) && ValueParts(a, t, value, rest)
    requires AttributeParts(rest, h, others, f)
    requires one == a.(before := b, name := name, last := if a.value.Blank? then "" else h)
    ensures GoodAttribute(one) && u == AttributesText([one] + others, f) && value == Written(one.value)
    ensures forall i :: 0 <= i < |others| ==> GoodAttribute(others[i])
  {
    hide IsGap, GoodValue, Solid;
    GapNone();
    var tail := AttributesText(others, f);
    assert ([one] + others)[1..] == others;
    if a.value.Blank? {
      assert h + tail == tail;
    }
  }

  /** What one parameter was read from: g are the blanks before u. */
  ghost predicate ParamParts(g: string, u: string, p: Param) {
    var r := ReadParameter(u);
    if r.None? then Flawed(g + u, [])
    else
      && Good(p)
      && (|| (g + u == ParamText(p, r.value.1) && r.value.0 == Parameter(p.name, Collected(p.attributes, map[])))
          || (r.value.1 == "" && p.attributes == [] && r.value.0 == Parameter(p.name, map[]) && exists h :: OpenEnd(g + u, p, h)))
  }

  lemma ParamOf(g: string, u: string) returns (p: Param)
    requires IsGap(g) && Solid(u) && u != ""
    ensures ParamParts(g, u, p)
  {
    hide SkipAll, IsGap, Gap, TokenLen, ReadAttributes, AttributeParts, Ended, FlawedParam, OpenEnd;
    var n := TokenLen(u);
    TokenOf(u);
    p := Param(g, "", "", []);
    if n == 0 {
      assert u[0..] == u && NoName(g + u, g, u);
    } else {
      SkipParts(u[n..]);
      var name, w, after := u[..n], SkipAll(u[n..]), Gap(u[n..]);
      assert u == name + (after + w);
      p := Param(g, name, after, []);
      if w == "" || w[0] != ';' {
      } else if w[1..] == "" {
        assert w == ";";
        NothingBehind(g + u, p);
      } else {
        SkipParts(w[1..]);
        if SkipAll(w[1..]) == "" {
          BlankBehind(g + u, p, w);
        } else {
          FirstIs(w[1..], map[]);
          assert ";" + w[1..] == w;
          var h, attrs, f := AttributesOf(w, map[]);
          SolidSemicolon(w);
          p := Param(g, name, after, attrs);
          AttributesBehind(g, u, p, w, h, f);
        }
      }
    }
  }

  lemma NothingBehind(t: string, p: Param)
    requires Good(p) && p.attributes == [] && t == ParamText(p, ";")
    ensures FlawedParam(t, p, ";")
  {
    hide IsGap;
    GapNone();
    BadNameIs(";", "", "");
  }

  lemma BlankBehind(t: string, p: Param, w: string)
    requires Good(p) && p.attributes == [] && t == ParamText(p, w) && w != "" && w[0] == ';' && w[1..] != ""
    requires SkipAll(w[1..]) == ""
    ensures ReadAttributes(w[1..], true, map[]) == (map[], Some("")) && SkipAll("") == "" && OpenEnd(t, p, w[1..])
  {
    hide SkipAll, IsGap, Gap;
    SkipParts(w[1..]);
    SkipSolid("");
    assert w == ";" + w[1..] && Gap(w[1..]) == w[1..];
  }

  lemma AttributesBehind(g: string, u: string, p: Param, w: string, h: string, f: string)
    requires IsGap(p.before) && IsToken(p.name) && IsGap(p.after) && g == p.before && u == p.name + (p.after + w)
    requires AttributeParts(w, h, p.attributes, f) && Ended(ReadAttributes(w, false, map[]), p.attributes, map[], f)
    requires Solid(w) && w != "" && SkipAll(w[1..]) != ""
    ensures Good(p) && g + u == ParamText(p, f)
    ensures var r := ReadAttributes(w, false, map[]); r.1.Some? ==> r == (Collected(p.attributes, map[]), Some(f)) && SkipAll(f) == f
    ensures ReadAttributes(w, false, map[]).1.None? ==> FlawedParam(g + u, p, f)
  {
    hide IsGap, SkipAll, ReadAttributes, BadAttribute, Solid;
    assert h == "" && "" + AttributesText(p.attributes, f) == AttributesText(p.attributes, f);
    if ReadAttributes(w, false, map[]).1.Some? {
      SkipSolid(f);
    } else if p.attributes == [] {
      if b: string :| b != "" && IsGap(b) && f == ";" + b {
        assert w[1..] == b + "";
        SkipGap(b, "") by { assert Solid("") by { NothingSolid(); } }
      }
    }
  }

  lemma NothingSolid()
    ensures Solid("")
  {
  }

  /** What the list was read from. */
  ghost predicate ListParts(t: string, r: (seq<Parameter>, Option<string>), done: seq<Parameter>, ps: seq<Param>, last: string, q: seq<Param>) {
    && AllGood(ps) && t == ListText(ps, last)
    && match r.1
       case None => Flawed(last, ps) && r.0 == done + Parameters(ps)
       case Some(rest) =>
         && r.0 == done + Parameters(ps + q)
         && if rest == "" then Complete(last, ps, q) else |q| == 1 && Good(q[0]) && last == ParamText(q[0], rest)
  }

  lemma {:induction false} ListOf(t: string, done: seq<Parameter>) returns (ps: seq<Param>, last: string, q: seq<Param>)
    ensures ListParts(t, ReadParameters(t, done), done, ps, last, q)
    decreases |t|
  {
    hide SkipAll, Gap, IsGap, ReadParameter, Good, ParamText, OpenEnd, ParamParts, ListParts;
    SkipParts(t);
    var u := SkipAll(t);
    ps, last, q := [], t, [];
    if u == "" {
      OnlyBlanks(t, done);
    } else {
      var p := ParamOf(Gap(t), u);
      q := [p];
      var r := ReadParameter(u);
      if r.None? || r.value.1 == "" || r.value.1[0] != ',' {
        NoComma(t, u, p, done);
      } else {
        var v := r.value.1;
        if v[1..] == "" {
          ps, last := [p], "";
          TrailingComma(t, u, p, done);
        } else {
          var more;
          more, last, q := ListOf(v[1..], done + [r.value.0]);
          ps := [p] + more;
          CommaThen(t, u, p, done, more, last, q);
        }
      }
    }
  }

  lemma OnlyBlanks(t: string, done: seq<Parameter>)
    requires SkipAll(t) == ""
    ensures ListParts(t, ReadParameters(t, done), done, [], t, [])
  {
    hide SkipAll, IsGap, Gap;
    SkipParts(t);
    assert Gap(t) + "" == Gap(t);
    var none: seq<Param> := [];
    assert none + none == none && done + [] == done;
  }

  lemma ParametersOne(p: Param)
    ensures Parameters([p]) == [Parameter(p.name, Collected(p.attributes, map[]))]
  {
    assert [p][1..] == [];
  }

  lemma NoComma(t: string, u: string, p: Param, done: seq<Parameter>)
    requires u == SkipAll(t) && u != "" && t == Gap(t) + u && ParamParts(Gap(t), u, p)
    requires ReadParameter(u).None? || ReadParameter(u).value.1 == "" || ReadParameter(u).value.1[0] != ','
    ensures ListParts(t, ReadParameters(t, done), done, [], t, [p])
  {
    hide SkipAll, IsGap, Gap, ReadParameter, ParamText, OpenEnd, Good;
    ParametersOne(p);
    assert [] + [p] == [p] && done + [] == done;
  }

  lemma TrailingComma(t: string, u: string, p: Param, done: seq<Parameter>)
    requires u == SkipAll(t) && u != "" && t == Gap(t) + u && ParamParts(Gap(t), u, p)
    requires ReadParameter(u).Some? && ReadParameter(u).value.1 == ","
    ensures ListParts(t, ReadParameters(t, done), done, [p], "", [p])
  {
    hide SkipAll, IsGap, Gap, ReadParameter, ParamText, OpenEnd, Good;
    ParametersOne(p);
    assert [p][1..] == [] && "," + "" == "," && ","[1..] == "" && ListText([], "") == "";
  }

  lemma LaterEnd(last: string, ps: seq<Param>, qs: seq<Param>, q: seq<Param>)
    requires qs != [] && (ps == [] ==> last != "")
    ensures Flawed(last, ps) ==> Flawed(last, qs)
    ensures Complete(last, ps, q) ==> Complete(last, qs, q)
  {
    hide FlawedParam, NoName, ParamText, OpenEnd, IsGap, Good;
  }

  lemma ListCons(p: Param, more: seq<Param>, q: seq<Param>, last: string)
    ensures ListText([p] + more, last) == ParamText(p, "," + ListText(more, last))
    ensures Parameters([p] + more) == [Parameter(p.name, Collected(p.attributes, map[]))] + Parameters(more)
    ensures Parameters([p] + more + q) == [Parameter(p.name, Collected(p.attributes, map[]))] + Parameters(more + q)
  {
    assert ([p] + more)[1..] == more && ([p] + more + q)[1..] == more + q;
  }

  lemma CommaThen(t: string, u: string, p: Param, done: seq<Parameter>, more: seq<Param>, last: string, q: seq<Param>)
    requires u == SkipAll(t) && u != "" && t == Gap(t) + u && ParamParts(Gap(t), u, p)
    requires ReadParameter(u).Some?
    requires var v := ReadParameter(u).value.1;
      v != "" && v[0] == ',' && v[1..] != "" &&
      var d := done + [ReadParameter(u).value.0]; ListParts(v[1..], ReadParameters(v[1..], d), d, more, last, q)
    ensures ListParts(t, ReadParameters(t, done), done, [p] + more, last, q)
  {
    hide SkipAll, IsGap, Gap, ReadParameter, ParamText, OpenEnd, Good, ReadParameters, Flawed, Complete, Parameters, ListText, Collected;
    var v := ReadParameter(u).value.1;
    assert v == "," + v[1..];
    EmptyList(last);
    LaterEnd(last, more, [p] + more, q);
    ListCons(p, more, q, last);
    ReadMore(t, u, done);
    var one := ReadParameter(u).value.0;
    Assoc(done, [one], Parameters(more));
    Assoc(done, [one], Parameters(more + q));
  }

  lemma ReadMore(t: string, u: string, done: seq<Parameter>)
    requires u == SkipAll(t) && u != "" && ReadParameter(u).Some?
    requires var v := ReadParameter(u).value.1; v != "" && v[0] == ',' && v[1..] != ""
    ensures ReadParameters(t, done) == ReadParameters(ReadParameter(u).value.1[1..], done + [ReadParameter(u).value.0])
  {
    hide SkipAll, ReadParameter;
  }

  // ----- exactly what is taken, and exactly what is rejected -------------------------------------------

  ghost predicate TakenAs(t: string, list: seq<Parameter>, ps: seq<Param>, last: string, q: seq<Param>) {
    AllGood(ps) && t == ListText(ps, last) && Complete(last, ps, q) && list == Parameters(ps + q)
  }

  /** A text is read to its end, as this list, if and only if it is one of the grammar that says so. */
  lemma AcceptedIff(t: string, list: seq<Parameter>)
    ensures ReadParameters(t, []) == (list, Some("")) <==>
            exists ps: seq<Param>, last: string, q: seq<Param> :: TakenAs(t, list, ps, last, q)
  {
    hide ReadParameters, ListText, ParamText, AllGood, Good, Complete;
    if ReadParameters(t, []) == (list, Some("")) {
      var ps, last, q := ListOf(t, []);
      assert [] + Parameters(ps + q) == Parameters(ps + q);
      assert TakenAs(t, list, ps, last, q);
    }
    if ps: seq<Param>, last: string, q: seq<Param> :| TakenAs(t, list, ps, last, q) {
      TakenBack(t, list, ps, last, q);
    }
  }

  lemma ParametersAppend(ps: seq<Param>, q: seq<Param>)
    ensures Parameters(ps + q) == Parameters(ps) + Parameters(q)
  {
    if ps == [] {
      assert ps + q == q;
    } else {
      assert (ps + q)[1..] == ps[1..] + q;
      ParametersAppend(ps[1..], q);
    }
  }

  lemma TakenBack(t: string, list: seq<Parameter>, ps: seq<Param>, last: string, q: seq<Param>)
    requires TakenAs(t, list, ps, last, q)
    ensures ReadParameters(t, []) == (list, Some(""))
  {
    hide ReadParameters, ListText, AttributesText, Good, IsGap, OpenEnd;
    ListBack(ps, last, []);
    ParametersAppend(ps, q);
    var done := Parameters(ps);
    assert [] + done == done;
    if q == [] {
      assert ps + q == ps;
      if last == "" {
        assert ps == [];
        NothingRead();
        EmptyList(last);
      } else {
        BlanksRead(last, done);
      }
    } else {
      var p := q[0];
      ParametersOne(p);
      assert q == [p];
      if last == ParamText(p, "") {
        OneRead(p, done);
      } else {
        var g :| OpenEnd(last, p, g);
        OpenRead(last, p, g, done);
      }
    }
  }

  lemma NothingRead()
    ensures ReadParameters("", []) == ([], Some(""))
  {
  }

  lemma EmptyList(last: string)
    ensures ListText([], last) == last
  {
  }

  lemma BlanksRead(g: string, done: seq<Parameter>)
    requires IsGap(g)
    ensures ReadParameters(g, done) == (done, Some(""))
  {
    hide SkipAll, IsGap, ReadParameter;
    NothingSolid();
    SkipGap(g, "");
    assert g + "" == g;
  }

  lemma OneRead(p: Param, done: seq<Parameter>)
    requires Good(p)
    ensures var t := ParamText(p, "");
            t != "" && ReadParameters(t, done) == (done + [Parameter(p.name, Collected(p.attributes, map[]))], Some(""))
  {
    hide SkipAll, ReadParameter, Good, AttributesText;
    ParameterBack(p, "");
    ParamShape(p, "");
  }

  lemma OpenRead(last: string, p: Param, g: string, done: seq<Parameter>)
    requires Good(p) && p.attributes == [] && OpenEnd(last, p, g)
    ensures last != "" && ReadParameters(last, done) == (done + [Parameter(p.name, Collected(p.attributes, map[]))], Some(""))
  {
    hide ReadParameters, IsGap;
    OpenBack(p, g, done);
  }

  ghost predicate RejectedAs(t: string, list: seq<Parameter>, ps: seq<Param>, last: string) {
    AllGood(ps) && t == ListText(ps, last) && Flawed(last, ps) && list == Parameters(ps)
  }

  /** A text is a syntax error, with this list kept, if and only if it is one of the grammar that ends in a flaw. */
  lemma RejectedIff(t: string, list: seq<Parameter>)
    ensures ReadParameters(t, []) == (list, None) <==>
            exists ps: seq<Param>, last: string :: RejectedAs(t, list, ps, last)
  {
    hide ReadParameters, ListText, ParamText, AllGood, Good, Flawed;
    if ReadParameters(t, []) == (list, None) {
      var ps, last, q := ListOf(t, []);
      assert [] + Parameters(ps) == Parameters(ps);
      assert RejectedAs(t, list, ps, last);
    }
    if ps: seq<Param>, last: string :| RejectedAs(t, list, ps, last) {
      RejectedBack(t, list, ps, last);
    }
  }

  lemma RejectedBack(t: string, list: seq<Parameter>, ps: seq<Param>, last: string)
    requires RejectedAs(t, list, ps, last)
    ensures ReadParameters(t, []) == (list, None)
  {
    hide ReadParameters, ListText, ParamText, Good, FlawedParam, NoName;
    ListBack(ps, last, []);
    var done := Parameters(ps);
    assert [] + done == done;
    if last == "" && ps != [] {
    } else if g: string, u: string :| NoName(last, g, u) {
      NoNameRead(last, g, u, done);
    } else {
      var p: Param, f: string :| FlawedParam(last, p, f);
      FlawedRead(last, p, f, done);
    }
  }

  lemma NoNameRead(last: string, g: string, u: string, done: seq<Parameter>)
    requires NoName(last, g, u)
    ensures last != "" && ReadParameters(last, done) == (done, None)
  {
    hide SkipAll, IsGap, Solid;
    SkipGap(g, u);
  }

  lemma FlawedRead(last: string, p: Param, f: string, done: seq<Parameter>)
    requires FlawedParam(last, p, f)
    ensures last != "" && ReadParameters(last, done) == (done, None)
  {
    hide ReadParameters, BadAttribute, OpenBlank, AttributesText, IsGap;
    FlawBack(p, f, done);
    assert p.name != "";
  }
}
