/**
 How the printed text is laid out: one element or member a line, indented by two spaces for each open scope.
 */
module JsonLayout {
  import opened JsonText

  datatype Line = Line(depth: nat, text: string)

  function Spaces(n: nat): string {
    if n == 0 then "" else " " + Spaces(n - 1)
  }

  function LinesText(lines: seq<Line>): string {
    if lines == [] then ""
    else
      var line := Spaces(2 * lines[0].depth) + lines[0].text;
      if |lines| == 1 then line else line + "\n" + LinesText(lines[1..])
  }

  function Boolean(b: bool): string {
    if b then "true" else "false"
  }

  /** The lines of a value after `lead` and before `end`. An empty object has an empty line, and the bracket after a
      single boolean has no line of its own. */
  function LinesOf(v: Json, depth: nat, lead: string, end: string): (lines: seq<Line>)
    ensures lines != []
  {
    match v
    case Str(s) => [Line(depth, lead + Quoted(s) + end)]
    case Bool(b) => [Line(depth, lead + Boolean(b) + end)]
    case Arr(es) =>
      if es.Elem? && es.head.Bool? then
        [Line(depth, lead + "["), Line(depth + 1, Boolean(es.head.b) + Spaces(2 * depth) + "]" + end)]
      else [Line(depth, lead + "[")] + ElemLines(es, depth + 1) + [Line(depth, "]" + end)]
    case Obj(ps) =>
      [Line(depth, lead + "{")] + (if ps.NoProp? then [Line(0, "")] else PropLines(ps, depth + 1))
      + [Line(depth, "}" + end)]
  }

  function ElemLines(es: Elems, depth: nat): (lines: seq<Line>)
    ensures es.Elem? ==> lines != []
  {
    match es
    case NoElem => []
    case Elem(head, NoElem) => LinesOf(head, depth, "", "")
    case Elem(head, tail) => LinesOf(head, depth, "", ",") + ElemLines(tail, depth)
  }

  function PropLines(ps: Props, depth: nat): (lines: seq<Line>)
    ensures ps.Prop? ==> lines != []
  {
    match ps
    case NoProp => []
    case Prop(key, value, NoProp) => LinesOf(value, depth, Quoted(key) + " : ", "")
    case Prop(key, value, rest) => LinesOf(value, depth, Quoted(key) + " : ", ",") + PropLines(rest, depth)
  }

  /** No array with more elements has a boolean at its head. */
  predicate Regular(v: Json) {
    match v
    case Arr(es) => RegularElems(es) && !(es.Elem? && es.head.Bool? && es.tail.Elem?)
    case Obj(ps) => RegularProps(ps)
    case _ => true
  }

  predicate RegularElems(es: Elems) {
    es.Elem? ==> Regular(es.head) && RegularElems(es.tail)
  }

  predicate RegularProps(ps: Props) {
    ps.Prop? ==> Regular(ps.value) && RegularProps(ps.rest)
  }

  lemma {:induction false} IndentIsSpaces(n: nat)
    ensures seq(n, _ => ' ') == Spaces(n)
  {
    if n > 0 {
      IndentIsSpaces(n - 1);
      assert seq(n, _ => ' ') == " " + seq(n - 1, _ => ' ');
    }
  }

  lemma IndentSpaces(depth: nat)
    ensures Indent(depth) == Spaces(2 * depth)
  {
    IndentIsSpaces(2 * depth);
  }

  lemma {:induction false} LinesConcat(a: seq<Line>, b: seq<Line>)
    requires a != [] && b != []
    ensures LinesText(a + b) == LinesText(a) + "\n" + LinesText(b)
    decreases |a|
  {
    hide Spaces;
    if |a| == 1 {
      assert (a + b)[1..] == b;
    } else {
      assert (a + b)[1..] == a[1..] + b;
      LinesConcat(a[1..], b);
      var line := Spaces(2 * a[0].depth) + a[0].text;
      assert line + "\n" + (LinesText(a[1..]) + "\n" + LinesText(b))
          == line + "\n" + LinesText(a[1..]) + "\n" + LinesText(b);
    }
  }

  lemma OneLine(depth: nat, text: string)
    ensures LinesText([Line(depth, text)]) == Spaces(2 * depth) + text
  {
  }

  lemma Enclosed(depth: nat, lead: string, end: string, open: string, close: string, inner: seq<Line>)
    requires inner != []
    ensures LinesText([Line(depth, lead + open)] + inner + [Line(depth, close + end)])
            == Spaces(2 * depth) + lead + (open + "\n" + LinesText(inner) + "\n" + Spaces(2 * depth) + close) + end
  {
    hide LinesText, Spaces;
    OneLine(depth, lead + open);
    OneLine(depth, close + end);
    LinesConcat([Line(depth, lead + open)], inner);
    LinesConcat([Line(depth, lead + open)] + inner, [Line(depth, close + end)]);
    Regroup(Spaces(2 * depth), lead, open, LinesText(inner), close, end);
  }

  lemma Regroup(indent: string, lead: string, open: string, inner: string, close: string, end: string)
    ensures indent + (lead + open) + "\n" + inner + "\n" + (indent + (close + end))
            == indent + lead + (open + "\n" + inner + "\n" + indent + close) + end
  {
  }

  /** The text of a value is its lines. */
  lemma {:induction false} ValueIsLines(v: Json, depth: nat, lead: string, end: string)
    requires Regular(v)
    ensures LinesText(LinesOf(v, depth, lead, end)) == Indent(depth) + lead + ValueText(v, depth) + end
    decreases v, 0
  {
    hide LinesText, Spaces, Indent, Quoted, ElemsText, PropsText, ElemLines, PropLines;
    IndentSpaces(depth);
    match v {
      case Str(s) =>
        OneLine(depth, lead + Quoted(s) + end);
        assert Indent(depth) + (lead + Quoted(s) + end) == Indent(depth) + lead + Quoted(s) + end;
      case Bool(b) =>
        OneLine(depth, lead + Boolean(b) + end);
        assert Indent(depth) + (lead + Boolean(b) + end) == Indent(depth) + lead + Boolean(b) + end;
      case Arr(es) => ArrayIsLines(es, depth, lead, end);
      case Obj(ps) => ObjectIsLines(ps, depth, lead, end);
    }
  }

  lemma {:induction false} ObjectIsLines(ps: Props, depth: nat, lead: string, end: string)
    requires RegularProps(ps)
    ensures LinesText(LinesOf(Obj(ps), depth, lead, end)) == Indent(depth) + lead + ValueText(Obj(ps), depth) + end
    decreases ps, 2
  {
    hide LinesText, Spaces, Indent, Quoted, ElemsText, PropsText, ElemLines, PropLines;
    IndentSpaces(depth);
    NoText(depth + 1);
    var inner := if ps.NoProp? then [Line(0, "")] else PropLines(ps, depth + 1);
    Enclosed(depth, lead, end, "{", "}", inner);
    if ps.Prop? {
      PropsAreLines(ps, depth + 1, false);
    }
    assert "{" + "\n" == "{\n";
  }

  lemma NoText(depth: nat)
    ensures PropsText(NoProp, depth, false) == "" && ElemsText(NoElem, depth, false) == ""
    ensures ElemLines(NoElem, depth) == [] && LinesText([Line(0, "")]) == ""
  {
    OneLine(0, "");
  }

  lemma {:induction false} ArrayIsLines(es: Elems, depth: nat, lead: string, end: string)
    requires Regular(Arr(es))
    ensures LinesText(LinesOf(Arr(es), depth, lead, end)) == Indent(depth) + lead + ValueText(Arr(es), depth) + end
    decreases es, 3
  {
    hide LinesText, Spaces, Indent, Quoted, ElemsText, PropsText, ElemLines, PropLines, HasData;
    DataOf(es);
    NoText(depth + 1);
    if es.NoElem? {
      EmptyArray(depth, lead, end);
    } else if es.head.Bool? {
      SingleBoolean(es.head.b, depth, lead, end);
    } else {
      FullArray(es, depth, lead, end);
    }
  }

  lemma {:induction false} FullArray(es: Elems, depth: nat, lead: string, end: string)
    requires RegularElems(es) && es.Elem? && !es.head.Bool?
    ensures LinesText([Line(depth, lead + "[")] + ElemLines(es, depth + 1) + [Line(depth, "]" + end)])
            == Indent(depth) + lead + ("[\n" + ElemsText(es, depth + 1, false) + "\n" + Indent(depth) + "]") + end
    decreases es, 2
  {
    hide *;
    IndentSpaces(depth);
    Enclosed(depth, lead, end, "[", "]", ElemLines(es, depth + 1));
    AddsAll(es.head);
    ElemsAreLines(es, depth + 1, false);
    NoSeparator(LinesText(ElemLines(es, depth + 1)));
    assert "[" + "\n" == "[\n";
  }

  lemma AddsAll(v: Json)
    requires !v.Bool?
    ensures AddsData(v)
  {
  }

  lemma NoSeparator(text: string)
    ensures Separator(false) + text == text
  {
  }

  lemma {:induction false} DataStays(es: Elems)
    ensures HasData(es, true)
  {
    if es.Elem? {
      DataStays(es.tail);
    }
  }

  lemma DataOf(es: Elems)
    ensures es.NoElem? ==> !HasData(es, false)
    ensures es.Elem? && es.head.Bool? && es.tail.NoElem? ==> !HasData(es, false)
    ensures es.Elem? && !es.head.Bool? ==> HasData(es, false)
  {
    if es.Elem? {
      DataStays(es.tail);
    }
  }

  lemma EmptyArray(depth: nat, lead: string, end: string)
    ensures LinesText([Line(depth, lead + "[")] + [] + [Line(depth, "]" + end)])
            == Indent(depth) + lead + ("[\n" + "" + "" + Indent(depth) + "]") + end
  {
    hide LinesText, Spaces, Indent;
    IndentSpaces(depth);
    OneLine(depth, lead + "[");
    OneLine(depth, "]" + end);
    LinesConcat([Line(depth, lead + "[")], [Line(depth, "]" + end)]);
    assert [Line(depth, lead + "[")] + [] == [Line(depth, lead + "[")];
    EmptyRegroup(Indent(depth), lead, end);
  }

  lemma EmptyRegroup(indent: string, lead: string, end: string)
    ensures indent + (lead + "[") + "\n" + (indent + ("]" + end))
            == indent + lead + ("[\n" + "" + "" + indent + "]") + end
  {
  }

  lemma SingleBoolean(b: bool, depth: nat, lead: string, end: string)
    ensures LinesText([Line(depth, lead + "["), Line(depth + 1, Boolean(b) + Spaces(2 * depth) + "]" + end)])
            == Indent(depth) + lead
               + ("[\n" + ElemsText(Elem(Bool(b), NoElem), depth + 1, false) + "" + Indent(depth) + "]") + end
  {
    hide LinesText, Spaces, Indent, ElemsText, Boolean;
    IndentSpaces(depth);
    IndentSpaces(depth + 1);
    var last := Boolean(b) + Spaces(2 * depth) + "]" + end;
    OneLine(depth, lead + "[");
    OneLine(depth + 1, last);
    LinesConcat([Line(depth, lead + "[")], [Line(depth + 1, last)]);
    assert [Line(depth, lead + "[")] + [Line(depth + 1, last)] == [Line(depth, lead + "["), Line(depth + 1, last)];
    BooleanElem(b, depth + 1);
    BooleanRegroup(Indent(depth), Indent(depth + 1), lead, Boolean(b), end);
  }

  lemma BooleanElem(b: bool, depth: nat)
    ensures ElemsText(Elem(Bool(b), NoElem), depth, false) == "" + Indent(depth) + Boolean(b) + ""
  {
  }

  lemma BooleanRegroup(indent: string, inner: string, lead: string, text: string, end: string)
    ensures indent + (lead + "[") + "\n" + (inner + (text + indent + "]" + end))
            == indent + lead + ("[\n" + ("" + inner + text + "") + "" + indent + "]") + end
  {
  }

  lemma {:induction false} ElemsAreLines(es: Elems, depth: nat, hasData: bool)
    requires es.Elem? && RegularElems(es) && (hasData || AddsData(es.head))
    ensures ElemsText(es, depth, hasData) == Separator(hasData) + LinesText(ElemLines(es, depth))
    decreases es, 1
  {
    hide LinesText, Spaces, Indent, ElemsText, Separator, LinesOf, ValueText;
    ElemsTextStep(es.head, es.tail, depth, hasData);
    if es.tail.NoElem? {
      ValueIsLines(es.head, depth, "", "");
      NoText(depth);
      NoMore(depth);
      LineRegroup(Separator(hasData), Indent(depth), "", ValueText(es.head, depth), "");
    } else {
      ValueIsLines(es.head, depth, "", ",");
      ElemsAreLines(es.tail, depth, true);
      LinesConcat(LinesOf(es.head, depth, "", ","), ElemLines(es.tail, depth));
      CommaLine();
      var more := LinesText(ElemLines(es.tail, depth));
      LineRegroup(Separator(hasData), Indent(depth), "", ValueText(es.head, depth), more);
    }
  }

  lemma NoMore(depth: nat)
    ensures ElemsText(NoElem, depth, true) == "" && PropsText(NoProp, depth, true) == ""
  {
  }

  lemma CommaLine()
    ensures Separator(true) == ",\n"
  {
  }

  lemma LineRegroup(separator: string, indent: string, lead: string, text: string, more: string)
    ensures separator + indent + lead + text + (",\n" + more) == separator + (indent + lead + text + "," + "\n" + more)
    ensures separator + indent + text + (",\n" + more) == separator + (indent + "" + text + "," + "\n" + more)
    ensures separator + indent + lead + text + "" == separator + (indent + lead + text + "")
    ensures separator + indent + text + "" == separator + (indent + "" + text + "")
  {
  }

  lemma {:induction false} PropsAreLines(ps: Props, depth: nat, hasData: bool)
    requires ps.Prop? && RegularProps(ps)
    ensures PropsText(ps, depth, hasData) == Separator(hasData) + LinesText(PropLines(ps, depth))
    decreases ps, 1
  {
    hide LinesText, Spaces, Indent, PropsText, Separator, LinesOf, ValueText, Quoted;
    PropsTextStep(ps.key, ps.value, ps.rest, depth, hasData);
    var lead, text := Quoted(ps.key) + " : ", ValueText(ps.value, depth);
    KeyRegroup(Separator(hasData), Indent(depth), Quoted(ps.key), text, PropsText(ps.rest, depth, true));
    if ps.rest.NoProp? {
      ValueIsLines(ps.value, depth, lead, "");
      NoMore(depth);
      LineRegroup(Separator(hasData), Indent(depth), lead, text, "");
    } else {
      ValueIsLines(ps.value, depth, lead, ",");
      PropsAreLines(ps.rest, depth, true);
      LinesConcat(LinesOf(ps.value, depth, lead, ","), PropLines(ps.rest, depth));
      CommaLine();
      LineRegroup(Separator(hasData), Indent(depth), lead, text, LinesText(PropLines(ps.rest, depth)));
    }
  }

  lemma KeyRegroup(separator: string, indent: string, key: string, text: string, more: string)
    ensures separator + indent + key + " : " + text + more == separator + indent + (key + " : ") + text + more
  {
  }

  /** A whole document begins at the margin. */
  lemma DocumentLines(v: Json)
    requires Regular(v)
    ensures ValueText(v, 0) == LinesText(LinesOf(v, 0, "", ""))
  {
    hide ValueText, LinesText, LinesOf;
    ValueIsLines(v, 0, "", "");
    assert Indent(0) == "";
    assert "" + "" + ValueText(v, 0) + "" == ValueText(v, 0);
  }
}
