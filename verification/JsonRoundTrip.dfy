/**
 The text of a value, read back: the parser returns the value, its strings cut, exactly when it is readable.
 */
module JsonRoundTrips {
  import opened JsonText
  import opened JsonParsers
  import opened Options

  lemma IndentIsWhite(depth: nat)
    ensures White(Indent(depth))
  {
  }

  /** How every value begins. */
  lemma FirstChar(v: Json, depth: nat)
    ensures var t := ValueText(v, depth);
            t != "" && !IsWhite(t[0]) && t[0] != ']' && t[0] != ',' && t[0] != '}'
  {
  }

  /** What is read of a printed value: the value, its strings cut, or nothing. */
  function Reading(v: Json, rest: string): Option<(Json, string)> {
    if Readable(v) then Some((Cut(v), rest)) else None
  }

  // ---------- One step of the parser ----------

  lemma ReadString(s: string, rest: string)
    ensures ParseValue(Quoted(s) + rest) == Reading(Str(s), rest)
  {
    QuotedText(s, rest);
    var text := Quoted(s) + rest;
    assert text[0] == '\"' && SkipWhite(text) == text;
  }

  lemma ReadBool(b: bool, rest: string)
    ensures ParseValue((if b then "true" else "false") + rest) == Some((Bool(b), rest))
  {
    var word := if b then "true" else "false";
    var text := word + rest;
    assert text[0] == word[0] && text[|word|..] == rest && word <= text;
    assert SkipWhite(text) == text;
  }

  lemma ReadArray(inner: string)
    ensures ParseValue("[" + inner)
            == match ParseElems(inner, true) case None => None case Some((es, rest)) => Some((Arr(es), rest))
  {
    var text := "[" + inner;
    assert text[1..] == inner && SkipWhite(text) == text;
  }

  lemma ReadObject(inner: string)
    ensures ParseValue("{" + inner)
            == match ParseProps(inner, true) case None => None case Some((ps, rest)) => Some((Obj(ps), rest))
  {
    var text := "{" + inner;
    assert text[1..] == inner && SkipWhite(text) == text;
  }

  /** No element: white space, then the bracket. */
  lemma ReadNoElem(w: string, rest: string)
    requires White(w)
    ensures ParseElems(w + "]" + rest, true) == Some((NoElem, rest))
  {
    var s := "]" + rest;
    assert w + "]" + rest == w + s && s[1..] == rest && SkipWhite(s) == s;
    SkipsWhite(w, s);
  }

  lemma ReadNoProp(w: string, rest: string)
    requires White(w)
    ensures ParseProps(w + "}" + rest, true) == Some((NoProp, rest))
  {
    var s := "}" + rest;
    assert w + "}" + rest == w + s && s[1..] == rest && SkipWhite(s) == s;
    SkipsWhite(w, s);
  }

  /** An element, by what follows it: the bracket, a comma and more elements, or anything else. */
  lemma ReadElem(w: string, body: string, first: bool)
    requires White(w) && body != "" && !IsWhite(body[0]) && body[0] != ']'
    ensures ParseElems(w + body, first)
            == match ParseValue(body)
               case None => None
               case Some((v, after)) =>
                 var s := SkipWhite(after);
                 if s == "" then None
                 else if s[0] == ']' then Some((Elem(v, NoElem), s[1..]))
                 else if s[0] == ',' then
                   match ParseElems(s[1..], false)
                   case None => None
                   case Some((es, rest)) => Some((Elem(v, es), rest))
                 else None
  {
    SkipsWhite(w, body);
    ValueAfterWhite(w, body);
  }

  /** A member: its key, a colon, its value, and what follows it. */
  lemma ReadProp(w: string, key: string, body: string, first: bool)
    requires White(w)
    ensures var r := ParseProps(w + (Quoted(key) + (" : " + body)), first);
            var expected :=
              match ParseValue(body)
              case None => None
              case Some((v, after)) =>
                var s := SkipWhite(after);
                if s == "" then None
                else if s[0] == '}' then Some((Prop(CString(key), v, NoProp), s[1..]))
                else if s[0] == ',' then
                  match ParseProps(s[1..], false)
                  case None => None
                  case Some((ps, rest)) => Some((Prop(CString(key), v, ps), rest))
                else None;
            r == if CleanString(CString(key)) then expected else None
  {
    var s := Quoted(key) + (" : " + body);
    SkipsWhite(w, s);
    QuotedText(key, " : " + body);
    assert s[0] == '\"' && SkipWhite(s) == s;
    var colon := ": " + body;
    assert " : " + body == " " + colon && colon[1..] == " " + body && SkipWhite(colon) == colon;
    SkipsWhite(" ", colon);
    ValueAfterWhite(" ", body);
  }

  // ---------- Whole values ----------

  /** What follows an element: the other elements, closing white space, the bracket, and the rest. */
  function AfterElem(tail: Elems, depth: nat, hasData: bool, close: string, rest: string): string {
    ElemsText(tail, depth, hasData) + (close + "]" + rest)
  }

  function AfterProp(tail: Props, depth: nat, close: string, rest: string): string {
    PropsText(tail, depth, true) + (close + "}" + rest)
  }

  lemma {:induction false} ValueRead(v: Json, depth: nat, rest: string)
    ensures ParseValue(ValueText(v, depth) + rest) == Reading(v, rest)
    decreases v, 0
  {
    hide ParseValue, ParseElems, ParseProps, SkipWhite, Quoted, ElemsText, PropsText;
    match v {
      case Str(s) => ReadString(s, rest);
      case Bool(b) => ReadBool(b, rest);
      case Arr(es) => ArrayRead(es, depth, rest);
      case Obj(ps) => ObjectRead(ps, depth, rest);
    }
  }

  lemma {:induction false} ArrayRead(es: Elems, depth: nat, rest: string)
    ensures ParseValue(ValueText(Arr(es), depth) + rest) == Reading(Arr(es), rest)
    decreases es, 2
  {
    var close := (if HasData(es, false) then "\n" else "") + Indent(depth);
    var text := ValueText(Arr(es), depth) + rest;
    hide ParseValue, ParseElems, HasData, Indent;
    IndentIsWhite(depth);
    if es.NoElem? {
      EmptyText(depth, rest);
      ReadNoElem("\n" + Indent(depth), rest);
      ReadArray("\n" + Indent(depth) + "]" + rest);
    } else {
      var w := "\n" + Indent(depth + 1);
      IndentIsWhite(depth + 1);
      var after := AfterElem(es.tail, depth + 1, AddsData(es.head), close, rest);
      var inner := w + (ValueText(es.head, depth + 1) + after);
      ArrayText(es, depth, rest);
      ElemsRead(es, depth + 1, false, w, close, rest, true);
      ReadArray(inner);
    }
  }

  lemma EmptyText(depth: nat, rest: string)
    ensures ValueText(Arr(NoElem), depth) + rest == "[" + ("\n" + Indent(depth) + "]" + rest)
    ensures ValueText(Obj(NoProp), depth) + rest == "{" + ("\n" + ("\n" + Indent(depth)) + "}" + rest)
  {
    var outer := Indent(depth);
    assert ValueText(Arr(NoElem), depth) == "[\n" + "" + "" + outer + "]";
    assert ValueText(Obj(NoProp), depth) == "{\n" + "" + "\n" + outer + "}";
    hide ValueText, Indent;
    assert "[\n" + "" + "" + outer + "]" + rest == "[" + ("\n" + outer + "]" + rest);
    assert "{\n" + "" + "\n" + outer + "}" + rest == "{" + ("\n" + ("\n" + outer) + "}" + rest);
  }

  lemma ArrayText(es: Elems, depth: nat, rest: string)
    requires es.Elem?
    ensures var close := (if HasData(es, false) then "\n" else "") + Indent(depth);
            var after := AfterElem(es.tail, depth + 1, AddsData(es.head), close, rest);
            ValueText(Arr(es), depth) + rest
            == "[" + ("\n" + Indent(depth + 1) + (ValueText(es.head, depth + 1) + after))
  {
    var newline := if HasData(es, false) then "\n" else "";
    var head, tail := ValueText(es.head, depth + 1), ElemsText(es.tail, depth + 1, AddsData(es.head));
    assert ElemsText(es, depth + 1, false) == "" + Indent(depth + 1) + head + tail;
    hide HasData, Indent, ElemsText;
    RegroupArray(Indent(depth + 1), head, tail, newline, Indent(depth), rest);
  }

  lemma RegroupArray(inner: string, head: string, tail: string, newline: string, outer: string, rest: string)
    ensures "[\n" + ("" + inner + head + tail) + newline + outer + "]" + rest
            == "[" + ("\n" + inner + (head + (tail + (newline + outer + "]" + rest))))
  {
  }

  lemma RegroupObject(inner: string, key: string, value: string, tail: string, close: string, rest: string)
    ensures "{\n" + ("" + inner + key + " : " + value + tail) + close + "}" + rest
            == "{" + ("\n" + inner + (key + (" : " + (value + (tail + (close + "}" + rest))))))
  {
  }

  lemma RegroupProp(inner: string, key: string, value: string, tail: string, end: string)
    ensures ",\n" + inner + key + " : " + value + tail + end
            == "," + ("\n" + inner + (key + (" : " + (value + (tail + end)))))
  {
  }

  lemma RegroupElem(separator: string, inner: string, head: string, tail: string, end: string)
    ensures separator + inner + head + tail + end == separator + (inner + (head + (tail + end)))
    ensures separator + inner + head + tail == separator + (inner + (head + tail))
  {
  }

  lemma {:induction false} ElemsRead(es: Elems, depth: nat, hasData: bool, w: string, close: string, rest: string,
                                     first: bool)
    requires es.Elem? && White(w) && White(close)
    ensures var body := ValueText(es.head, depth)
                        + AfterElem(es.tail, depth, hasData || AddsData(es.head), close, rest);
            ParseElems(w + body, first)
            == if ReadableElems(es) && (hasData || AddsData(es.head) || es.tail.NoElem?)
               then Some((CutElems(es), rest)) else None
    decreases es, 1
  {
    var hasData' := hasData || AddsData(es.head);
    var after := AfterElem(es.tail, depth, hasData', close, rest);
    var body := ValueText(es.head, depth) + after;
    ValueRead(es.head, depth, after);
    FirstChar(es.head, depth);
    assert body[0] == ValueText(es.head, depth)[0];
    ReadElem(w, body, first);
    AfterElemText(es.tail, depth, hasData', close, rest);
    if es.tail.Elem? && hasData' {
      IndentIsWhite(depth);
      ElemsRead(es.tail, depth, true, "\n" + Indent(depth), close, rest, false);
    }
    hide ParseValue, ParseElems, ValueText, AfterElem, SkipWhite;
  }

  /** The next token after an element: a bracket, a comma, or, when the comma is missing, a value. */
  lemma AfterElemText(tail: Elems, depth: nat, hasData: bool, close: string, rest: string)
    requires White(close)
    ensures var s := SkipWhite(AfterElem(tail, depth, hasData, close, rest));
            && s != ""
            && (tail.NoElem? ==> s[0] == ']' && s[1..] == rest)
            && (tail.Elem? && hasData ==>
                  && s[0] == ','
                  && s[1..] == "\n" + Indent(depth)
                               + (ValueText(tail.head, depth) + AfterElem(tail.tail, depth, true, close, rest)))
            && (tail.Elem? && !hasData ==> s[0] != ',' && s[0] != ']')
  {
    hide ValueText, Indent, ElemsText, SkipWhite, HasData;
    var after := AfterElem(tail, depth, hasData, close, rest);
    if tail.NoElem? {
      NoText(depth, hasData);
      assert after == close + ("]" + rest) by {
        assert "" + (close + "]" + rest) == close + ("]" + rest);
      }
      SkipsWhite(close, "]" + rest);
      NotWhite("]" + rest);
    } else {
      var hasData' := hasData || AddsData(tail.head);
      var body := ValueText(tail.head, depth) + AfterElem(tail.tail, depth, hasData', close, rest);
      ElemsTextStep(tail.head, tail.tail, depth, hasData);
      RegroupElem(Separator(hasData), Indent(depth), ValueText(tail.head, depth), ElemsText(tail.tail, depth, hasData'),
                  close + "]" + rest);
      if hasData {
        assert after == "," + ("\n" + Indent(depth) + body);
        NotWhite(after);
      } else {
        IndentIsWhite(depth);
        FirstChar(tail.head, depth);
        assert after == Indent(depth) + body && body[0] == ValueText(tail.head, depth)[0];
        SkipsWhite(Indent(depth), body);
        NotWhite(body);
      }
    }
  }

  lemma NoText(depth: nat, hasData: bool)
    ensures ElemsText(NoElem, depth, hasData) == "" && PropsText(NoProp, depth, hasData) == ""
  {
  }

  lemma {:induction false} ObjectRead(ps: Props, depth: nat, rest: string)
    ensures ParseValue(ValueText(Obj(ps), depth) + rest) == Reading(Obj(ps), rest)
    decreases ps, 2
  {
    var close := "\n" + Indent(depth);
    var text := ValueText(Obj(ps), depth) + rest;
    hide ParseValue, ParseProps, Indent;
    IndentIsWhite(depth);
    if ps.NoProp? {
      EmptyText(depth, rest);
      ReadNoProp("\n" + close, rest);
      ReadObject("\n" + close + "}" + rest);
    } else {
      var w := "\n" + Indent(depth + 1);
      IndentIsWhite(depth + 1);
      var inner := w + (Quoted(ps.key) + (" : " + (ValueText(ps.value, depth + 1)
                                                   + AfterProp(ps.rest, depth + 1, close, rest))));
      ObjectText(ps, depth, rest);
      PropsRead(ps, depth + 1, w, close, rest, true);
      ReadObject(inner);
    }
  }

  lemma ObjectText(ps: Props, depth: nat, rest: string)
    requires ps.Prop?
    ensures var close := "\n" + Indent(depth);
            ValueText(Obj(ps), depth) + rest
            == "{" + ("\n" + Indent(depth + 1)
                      + (Quoted(ps.key) + (" : " + (ValueText(ps.value, depth + 1)
                                                    + AfterProp(ps.rest, depth + 1, close, rest)))))
  {
    var key, value, tail := Quoted(ps.key), ValueText(ps.value, depth + 1), PropsText(ps.rest, depth + 1, true);
    assert PropsText(ps, depth + 1, false) == "" + Indent(depth + 1) + key + " : " + value + tail;
    var members := PropsText(ps, depth + 1, false);
    assert ValueText(Obj(ps), depth) == "{\n" + members + "\n" + Indent(depth) + "}";
    hide Indent, PropsText, Quoted, ValueText;
    RegroupObject(Indent(depth + 1), key, value, tail, "\n" + Indent(depth), rest);
    RegroupClose(members, Indent(depth), rest);
  }

  lemma RegroupClose(members: string, outer: string, rest: string)
    ensures "{\n" + members + "\n" + outer + "}" + rest == "{\n" + members + ("\n" + outer) + "}" + rest
  {
  }

  lemma {:induction false} PropsRead(ps: Props, depth: nat, w: string, close: string, rest: string, first: bool)
    requires ps.Prop? && White(w) && White(close)
    ensures var body := ValueText(ps.value, depth) + AfterProp(ps.rest, depth, close, rest);
            ParseProps(w + (Quoted(ps.key) + (" : " + body)), first)
            == if ReadableProps(ps) then Some((CutProps(ps), rest)) else None
    decreases ps, 1
  {
    var after := AfterProp(ps.rest, depth, close, rest);
    ValueRead(ps.value, depth, after);
    ReadProp(w, ps.key, ValueText(ps.value, depth) + after, first);
    AfterPropText(ps.rest, depth, close, rest);
    if ps.rest.Prop? {
      IndentIsWhite(depth);
      PropsRead(ps.rest, depth, "\n" + Indent(depth), close, rest, false);
    }
    hide ParseValue, ParseProps, ValueText, AfterProp, SkipWhite, Quoted;
  }

  lemma AfterPropText(tail: Props, depth: nat, close: string, rest: string)
    requires White(close)
    ensures var s := SkipWhite(AfterProp(tail, depth, close, rest));
            && s != ""
            && (tail.NoProp? ==> s[0] == '}' && s[1..] == rest)
            && (tail.Prop? ==>
                  && s[0] == ','
                  && s[1..] == "\n" + Indent(depth)
                               + (Quoted(tail.key) + (" : " + (ValueText(tail.value, depth)
                                                               + AfterProp(tail.rest, depth, close, rest)))))
  {
    var after := AfterProp(tail, depth, close, rest);
    if tail.NoProp? {
      var s := "}" + rest;
      assert after == close + s && SkipWhite(s) == s;
      SkipsWhite(close, s);
    } else {
      var key, value, others := Quoted(tail.key), ValueText(tail.value, depth), PropsText(tail.rest, depth, true);
      assert PropsText(tail, depth, true) == ",\n" + Indent(depth) + key + " : " + value + others;
      hide ValueText, Indent, Quoted, PropsText;
      RegroupProp(Indent(depth), key, value, others, close + "}" + rest);
      assert SkipWhite(after) == after;
    }
  }

  /** The text of a value, with white space after it, is JSON exactly when the value is readable, and then it is that of
      the value with its strings cut. */
  lemma DocumentRead(v: Json, after: string)
    requires White(after)
    ensures ParseDocument(ValueText(v, 0) + after) == if Readable(v) then Some(Cut(v)) else None
  {
    ValueRead(v, 0, after);
    SkipsWhite(after, "");
    assert after + "" == after;
  }

  /** It is read back as the value itself exactly when that is clean. */
  lemma RoundTripIff(v: Json, after: string)
    requires White(after)
    ensures ParseDocument(ValueText(v, 0) + after) == Some(v) <==> Clean(v)
  {
    DocumentRead(v, after);
    CleanIff(v);
  }
}
