/**
 The parameter lists of HTTP headers (websocketpp/http/parser.hpp). What a cursor still has
 before it is a suffix of the text; the functions here take such a suffix and give the one
 behind what they read. The methods move cursors as the parser does.
 */
module HttpParams {
  import opened Wrappers

  const QUOTE: char := '\"'
  const BACKSLASH: char := '\\'

  // ----- characters (websocketpp/http/constants.hpp) ---------------------------------------

  /** header_token, row by row */
  predicate IsTokenChar(c: char) {
    var n := c as int;
    || n == 0x21 || 0x23 <= n <= 0x27 || n == 0x2A || n == 0x2B || n == 0x2D || n == 0x2E
    || 0x30 <= n <= 0x39
    || 0x41 <= n <= 0x5A || n == 0x5E || n == 0x5F
    || 0x60 <= n <= 0x7A || n == 0x7C || n == 0x7E
  }

  predicate IsWhitespaceChar(c: char) { c as int == 9 || c as int == 32 }

  /** The separators of section 2.2 of RFC 2616. */
  predicate IsSeparator(c: char) {
    c in {'(', ')', '<', '>', '@', ',', ';', ':', '\\', '\"', '/', '[', ']', '?', '=', '{', '}', ' ', '\t'}
  }

  /** The table is the token of section 2.2 of RFC 2616: any CHAR but controls and separators. */
  lemma TokenTable(c: char)
    ensures IsTokenChar(c) <==> 32 <= c as int < 127 && !IsSeparator(c)
  {
  }

  // ----- tokens and blanks ------------------------------------------------------------------

  function TokenLen(t: string): (n: nat)
    ensures n <= |t|
    decreases |t|
  {
    if t != "" && IsTokenChar(t[0]) then 1 + TokenLen(t[1..]) else 0
  }

  function SkipWs(t: string): (u: string)
    ensures u == t || |u| < |t|
    decreases |t|
  {
    if t != "" && IsWhitespaceChar(t[0]) then SkipWs(t[1..]) else t
  }

  predicate Folds(t: string) {
    |t| > 2 && t[0] == '\r' && t[1] == '\n' && IsWhitespaceChar(t[2])
  }

  function SkipLws(t: string): (u: string)
    ensures u == t || |u| < |t|
  {
    if Folds(t) then SkipWs(t[3..]) else SkipWs(t)
  }

  function SkipAll(t: string): (u: string)
    ensures |u| <= |t|
    decreases |t|
  {
    var u := SkipLws(t);
    if u != "" && u != t then SkipAll(u) else u
  }

  lemma {:induction false} SkipTwice(t: string)
    ensures SkipAll(SkipAll(t)) == SkipAll(t)
    decreases |t|
  {
    hide SkipLws;
    var u := SkipLws(t);
    if u != "" && u != t {
      SkipTwice(u);
    } else if u == "" {
      assert SkipLws("") == "" by { SkipNone(); }
    }
  }

  lemma SkipNone()
    ensures SkipLws("") == ""
  {
  }

  // ----- quoted strings -----------------------------------------------------------------------

  function FindQuote(t: string): (q: nat)
    ensures q <= |t| && (q < |t| ==> t[q] == QUOTE)
    decreases |t|
  {
    if t == "" || t[0] == QUOTE then 0 else 1 + FindQuote(t[1..])
  }

  /** The text behind an opening or an escaped quote; the value, and what follows the closing quote. */
  function QuotedRest(t: string, acc: string): (r: Option<(string, string)>)
    ensures r.Some? ==> |r.value.1| < |t|
    decreases |t|
  {
    var q := FindQuote(t);
    if q == |t| then None
    else if q > 0 && t[q - 1] == BACKSLASH then QuotedRest(t[q + 1..], acc + t[..q - 1] + [QUOTE])
    else Some((acc + t[..q], t[q + 1..]))
  }

  function Quoted(t: string): (r: Option<(string, string)>)
    ensures r.Some? ==> |r.value.1| < |t|
  {
    if t == "" || t[0] != QUOTE then None else QuotedRest(t[1..], "")
  }

  // ----- attributes and parameters -----------------------------------------------------------

  type Attributes = map<string, string>
  datatype Parameter = Parameter(name: string, attributes: Attributes)

  /** The value of an attribute, and what follows it; t starts behind the name. */
  function AttributeValue(t: string): (r: Option<(string, string)>)
    ensures r.Some? ==> |r.value.1| <= |t|
  {
    var u := SkipAll(t);
    if u == "" || u[0] != '=' then Some(("", u))
    else
      var v := SkipAll(u[1..]);
      if v == "" then None
      else if Quoted(v).Some? then Quoted(v)
      else
        var n := TokenLen(v);
        if n == 0 then None else Some((v[..n], v[n..]))
  }

  /** The attributes read, and what follows them; None is a syntax error. */
  function ReadAttributes(t: string, first: bool, attrs: Attributes): (r: (Attributes, Option<string>))
    ensures r.1.Some? ==> |r.1.value| <= |t|
    ensures r.1.Some? && first && t != "" ==> |r.1.value| < |t|
    decreases |t|
  {
    if t == "" then (attrs, Some(t))
    else
      var u := SkipAll(t);
      if u == "" then (attrs, Some(u))
      else if !first && u[0] != ';' then (attrs, Some(u))
      else
        var w := SkipAll(if first then u else u[1..]);
        var n := TokenLen(w);
        if n == 0 then (attrs, None)
        else
          var v := AttributeValue(w[n..]);
          if v.None? then (attrs, None) else ReadAttributes(v.value.1, false, attrs[w[..n] := v.value.0])
  }

  /** One parameter with its attributes, and what follows it and its blanks. */
  function ReadParameter(u: string): (r: Option<(Parameter, string)>)
    ensures r.Some? ==> |r.value.1| < |u|
  {
    var n := TokenLen(u);
    if n == 0 then None
    else
      var w := SkipAll(u[n..]);
      if w == "" || w[0] != ';' then Some((Parameter(u[..n], map[]), w))
      else if w[1..] == "" then None
      else
        var a := ReadAttributes(w[1..], true, map[]);
        if a.1.None? then None else Some((Parameter(u[..n], a.0), SkipAll(a.1.value)))
  }

  /** The parameters read, and what follows them; None is a syntax error. */
  function ReadParameters(t: string, ps: seq<Parameter>): (r: (seq<Parameter>, Option<string>))
    ensures r.1.Some? ==> |r.1.value| <= |t|
    decreases |t|
  {
    var u := SkipAll(t);
    if u == "" then (ps, Some(u))
    else
      var p := ReadParameter(u);
      if p.None? then (ps, None)
      else
        var all, v := ps + [p.value.0], p.value.1;
        if v == "" || v[0] != ',' then (all, Some(v))
        else if v[1..] == "" then (all, None)
        else ReadParameters(v[1..], all)
  }

  // ----- the cursors -------------------------------------------------------------------------------

  lemma Tail(s: string, i: nat, k: nat)
    requires i + k <= |s|
    ensures s[i..][k..] == s[i + k..] && s[i..][..k] == s[i..i + k]
    ensures i < |s| ==> s[i..][0] == s[i]
    ensures i + k < |s| ==> s[i..][k] == s[i + k]
  {
  }

  /** extract_token */
  method ExtractToken(s: string, begin: nat) returns (token: string, it: nat)
    requires begin <= |s|
    ensures it == begin + TokenLen(s[begin..]) && it <= |s| && token == s[begin..it]
  {
    it := begin;
    while it < |s| && IsTokenChar(s[it])
      invariant begin <= it <= |s| && TokenLen(s[begin..]) == it - begin + TokenLen(s[it..])
    {
      Tail(s, it, 1);
      it := it + 1;
    }
    token := s[begin..it];
  }

  lemma QuotedStep(s: string, marker: nat, cursor: nat, value: string)
    requires marker <= cursor <= |s| && cursor == marker + FindQuote(s[marker..])
    ensures cursor == |s| ==> QuotedRest(s[marker..], value) == None
    ensures cursor < |s| ==> s[cursor] == QUOTE
    ensures cursor < |s| && marker < cursor && s[cursor - 1] == BACKSLASH ==>
      QuotedRest(s[marker..], value) == QuotedRest(s[cursor + 1..], value + s[marker..cursor - 1] + [QUOTE])
    ensures cursor < |s| && !(marker < cursor && s[cursor - 1] == BACKSLASH) ==>
      QuotedRest(s[marker..], value) == Some((value + s[marker..cursor], s[cursor + 1..]))
  {
    hide FindQuote;
    var q := cursor - marker;
    Tail(s, marker, q);
    if cursor < |s| {
      Tail(s, marker, q + 1);
      if q > 0 {
        Tail(s, marker, q - 1);
      }
    }
  }

  /** extract_quoted_string: begin itself when there is none. */
  method ExtractQuotedString(s: string, begin: nat) returns (value: string, it: nat)
    requires begin <= |s|
    ensures match Quoted(s[begin..])
            case None => it == begin && value == ""
            case Some(r) => begin < it <= |s| && value == r.0 && s[it..] == r.1
  {
    hide QuotedRest, FindQuote;
    if begin == |s| || s[begin] != QUOTE {
      return "", begin;
    }
    Tail(s, begin, 1);
    value := "";
    var marker := begin + 1;
    var cursor := Find(s, marker);
    while cursor != |s|
      invariant begin < marker <= cursor <= |s| && cursor == marker + FindQuote(s[marker..])
      invariant s[marker - 1] == QUOTE && Quoted(s[begin..]) == QuotedRest(s[marker..], value)
      decreases |s| - marker
    {
      QuotedStep(s, marker, cursor, value);
      if s[cursor - 1] == BACKSLASH {
        value := value + s[marker..cursor - 1] + [QUOTE];
        cursor := cursor + 1;
        marker := cursor;
      } else {
        value := value + s[marker..cursor];
        return value, cursor + 1;
      }
      cursor := Find(s, cursor);
    }
    QuotedStep(s, marker, cursor, value);
    return "", begin;
  }

  /** std::find of a quote */
  method Find(s: string, from: nat) returns (it: nat)
    requires from <= |s|
    ensures it == from + FindQuote(s[from..]) && it <= |s|
  {
    it := from;
    while it < |s| && s[it] != QUOTE
      invariant from <= it <= |s| && FindQuote(s[from..]) == it - from + FindQuote(s[it..])
    {
      Tail(s, it, 1);
      it := it + 1;
    }
  }

  /** extract_lws */
  method ExtractLws(s: string, begin: nat) returns (it: nat)
    requires begin <= |s|
    ensures begin <= it <= |s| && s[it..] == SkipLws(s[begin..])
  {
    it := begin;
    ghost var t := s[begin..];
    if |s| - begin > 2 && s[begin] == '\r' && s[begin + 1] == '\n' && IsWhitespaceChar(s[begin + 2]) {
      Tail(s, begin, 3);
      it := begin + 3;
    }
    assert SkipLws(t) == SkipWs(s[it..]);
    while it < |s| && IsWhitespaceChar(s[it])
      invariant begin <= it <= |s| && SkipLws(t) == SkipWs(s[it..])
    {
      Tail(s, it, 1);
      it := it + 1;
    }
  }

  /** extract_all_lws */
  method ExtractAllLws(s: string, begin: nat) returns (newIt: nat)
    requires begin <= |s|
    ensures begin <= newIt <= |s| && s[newIt..] == SkipAll(s[begin..])
  {
    hide SkipLws;
    var oldIt := begin;
    newIt := ExtractLws(s, oldIt);
    while newIt != |s| && oldIt != newIt
      invariant begin <= oldIt <= newIt <= |s| && s[newIt..] == SkipLws(s[oldIt..])
      invariant SkipAll(s[oldIt..]) == SkipAll(s[begin..])
      decreases |s| - oldIt
    {
      oldIt := newIt;
      newIt := ExtractLws(s, oldIt);
    }
  }

  /** The value part of one round of extract_attributes: failed is a return of begin. */
  method ExtractValue(s: string, begin: nat) returns (failed: bool, value: string, cursor: nat)
    requires begin <= |s|
    ensures match AttributeValue(s[begin..])
            case None => failed
            case Some(r) => !failed && value == r.0 && begin <= cursor <= |s| && s[cursor..] == r.1
  {
    hide SkipAll, Quoted, TokenLen;
    failed, value := false, "";
    cursor := ExtractAllLws(s, begin);
    if cursor == |s| || s[cursor] != '=' {
      Tail(s, cursor, 0);
      return;
    }
    Tail(s, cursor, 1);
    cursor := ExtractAllLws(s, cursor + 1);
    if cursor == |s| {
      return true, "", cursor;
    }
    var it: nat;
    value, it := ExtractQuotedString(s, cursor);
    if it != cursor {
      return false, value, it;
    }
    value, it := ExtractToken(s, cursor);
    Tail(s, cursor, it - cursor);
    return value == "", value, it;
  }

  /** extract_attributes */
  method ExtractAttributes(s: string, begin: nat, attributes: Attributes) returns (cursor: nat, attrs: Attributes)
    requires begin <= |s|
    ensures begin <= cursor <= |s|
    ensures begin == |s| ==> cursor == begin && attrs == attributes
    ensures begin < |s| ==>
        var r := ReadAttributes(s[begin..], true, attributes);
        attrs == r.0 && (if r.1.None? then cursor == begin else begin < cursor && s[cursor..] == r.1.value)
  {
    hide SkipAll, AttributeValue, TokenLen;
    attrs := attributes;
    if begin == |s| {
      return begin, attrs;
    }
    var first := true;
    cursor := begin;
    while cursor != |s|
      invariant begin <= cursor <= |s| && (cursor == begin ==> first)
      invariant ReadAttributes(s[cursor..], first, attrs) == ReadAttributes(s[begin..], true, attributes)
      decreases |s| - cursor
    {
      ghost var from := cursor;
      cursor := ExtractAllLws(s, cursor);
      if cursor == |s| {
        break;
      }
      if first {
        first := false;
      } else if s[cursor] == ';' {
        Tail(s, cursor, 1);
        cursor := cursor + 1;
      } else {
        Tail(s, cursor, 0);
        break;
      }
      cursor := ExtractAllLws(s, cursor);
      var name, it := ExtractToken(s, cursor);
      if name == "" {
        return begin, attrs;
      }
      Tail(s, cursor, it - cursor);
      var failed, value, next := ExtractValue(s, it);
      if failed {
        return begin, attrs;
      }
      attrs := attrs[name := value];
      cursor := next;
    }
  }

  /** One round of extract_parameters up to the comma: failed is a return of begin. */
  method ExtractParameter(s: string, begin: nat) returns (failed: bool, p: Parameter, cursor: nat)
    requires begin <= |s|
    ensures match ReadParameter(s[begin..])
            case None => failed
            case Some(r) => !failed && p == r.0 && begin < cursor <= |s| && s[cursor..] == r.1
  {
    hide SkipAll, ReadAttributes, TokenLen;
    failed, p := false, Parameter("", map[]);
    cursor := begin;
    var name, it := ExtractToken(s, begin);
    if name == "" {
      return true, p, begin;
    }
    Tail(s, begin, it - begin);
    cursor := ExtractAllLws(s, it);
    var attributes: Attributes := map[];
    if cursor == |s| || s[cursor] != ';' {
      p := Parameter(name, attributes);
      SkipTwice(s[it..]);
      cursor := ExtractAllLws(s, cursor);
      return;
    }
    Tail(s, cursor, 1);
    cursor := cursor + 1;
    var acursor;
    acursor, attributes := ExtractAttributes(s, cursor, attributes);
    if acursor == cursor {
      return true, p, begin;
    }
    p := Parameter(name, attributes);
    cursor := ExtractAllLws(s, acursor);
  }

  /** extract_parameters; on a syntax error the parameters read before it stay in the list. */
  method ExtractParameters(s: string, begin: nat, parameters: seq<Parameter>) returns (cursor: nat, ps: seq<Parameter>)
    requires begin <= |s|
    ensures begin <= cursor <= |s|
    ensures begin == |s| ==> cursor == begin && ps == parameters
    ensures begin < |s| ==>
        var r := ReadParameters(s[begin..], parameters);
        ps == r.0 && (if r.1.None? then cursor == begin else s[cursor..] == r.1.value)
  {
    hide SkipAll, ReadParameter;
    ps := parameters;
    if begin == |s| {
      return begin, ps;
    }
    cursor := begin;
    while cursor != |s|
      invariant begin <= cursor <= |s|
      invariant ReadParameters(s[cursor..], ps) == ReadParameters(s[begin..], parameters)
      decreases |s| - cursor
    {
      cursor := ExtractAllLws(s, cursor);
      if cursor == |s| {
        break;
      }
      var failed, p, next := ExtractParameter(s, cursor);
      if failed {
        return begin, ps;
      }
      ps := ps + [p];
      cursor := next;
      if cursor == |s| || s[cursor] != ',' {
        break;
      }
      Tail(s, cursor, 1);
      cursor := cursor + 1;
      if cursor == |s| {
        return begin, ps;
      }
    }
  }
}
