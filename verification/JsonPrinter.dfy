/**
 The JSON printer (`OutputStream` of src/zimcheck/json_tools.h and json_tools.cpp): a pushdown machine whose stack of
 open scopes remembers whether each has data, to place separators.
 */
module JsonPrinters {
  import opened JsonText
  import opened JsonLayout
  import opened JsonParsers
  import opened JsonRoundTrips
  import opened Options

  datatype ScopeType = OBJECT | ARRAY

  datatype ScopeInfo = ScopeInfo(kind: ScopeType, hasData: bool)

  /** What is written with `<<`; the value of a property is any token but a property or an end. */
  datatype Token =
    | StartObject | EndObject | StartArray | EndArray | Text(s: string) | Boolean(b: bool)
    | Property(key: string, value: Token)

  /** The text written so far and the open scopes, the innermost last. */
  datatype PrinterState = PrinterState(out: string, nesting: seq<ScopeInfo>) {
    predicate Inside(kind: ScopeType) {
      nesting != [] && nesting[|nesting| - 1].kind == kind
    }

    function Sep(): string {
      if nesting == [] then "" else Separator(nesting[|nesting| - 1].hasData)
    }

    function Indentation(): string {
      Indent(|nesting|)
    }

    function Write(text: string): PrinterState {
      PrinterState(out + text, nesting)
    }

    function Push(kind: ScopeType): PrinterState {
      PrinterState(out, nesting + [ScopeInfo(kind, false)])
    }

    function Pop(): PrinterState
      requires nesting != []
    {
      PrinterState(out, nesting[..|nesting| - 1])
    }

    function MarkData(): PrinterState {
      if nesting == [] then this
      else PrinterState(out, nesting[|nesting| - 1 := nesting[|nesting| - 1].(hasData := true)])
    }
  }

  predicate IsValueToken(t: Token) {
    t.StartObject? || t.StartArray? || t.Text? || t.Boolean?
  }

  /** What the assertions of the code demand, and that a property has a value. */
  predicate Accepts(st: PrinterState, t: Token) {
    match t
    case Text(_) => st.nesting != []
    case EndObject => st.Inside(OBJECT)
    case EndArray => st.Inside(ARRAY)
    case Property(_, value) => st.nesting != [] && IsValueToken(value)
    case _ => true
  }

  /** `output` of anything but a property. */
  function Output(st: PrinterState, t: Token): PrinterState
    requires Accepts(st, t) && !t.Property?
  {
    match t
    case Boolean(b) => st.Write(if b then "true" else "false")
    case Text(s) => st.MarkData().Write(Quoted(s))
    case StartObject => st.Write("{\n").Push(OBJECT)
    case StartArray => st.Write("[\n").Push(ARRAY)
    case EndObject =>
      var outer := st.Pop();
      var closed := outer.Write("\n" + outer.Indentation() + "}");
      if outer.nesting == [] then closed.Write("\n") else closed.MarkData()
    case EndArray =>
      var outer := st.Pop();
      outer.Write((if st.nesting[|st.nesting| - 1].hasData then "\n" else "") + outer.Indentation() + "]").MarkData()
  }

  /** `operator<<`: inside an array, all but its end is an element. */
  function PutSimple(st: PrinterState, t: Token): PrinterState
    requires Accepts(st, t) && !t.Property?
  {
    if st.Inside(ARRAY) && !t.EndArray? then Output(st.Write(st.Sep() + st.Indentation()), t) else Output(st, t)
  }

  function Put(st: PrinterState, t: Token): PrinterState
    requires Accepts(st, t)
  {
    match t
    case Property(key, value) =>
      var element := if st.Inside(ARRAY) then st.Write(st.Sep() + st.Indentation()) else st;
      var member := element.Write(element.Sep() + element.Indentation()).MarkData();
      PutSimple(PutSimple(member, Text(key)).Write(" : "), value)
    case _ => PutSimple(st, t)
  }

  /** Nothing when a token violates an assertion. */
  function Run(st: PrinterState, tokens: seq<Token>): Option<PrinterState>
    decreases |tokens|
  {
    if tokens == [] then Some(st)
    else if Accepts(st, tokens[0]) then Run(Put(st, tokens[0]), tokens[1..])
    else None
  }

  class OutputStream {
    const enabled: bool
    var out: string
    var nesting: seq<ScopeInfo>

    function State(): PrinterState
      reads this
    {
      PrinterState(out, nesting)
    }

    constructor (enabled: bool)
      ensures this.enabled == enabled && State() == PrinterState("", [])
    {
      this.enabled, out, nesting := enabled, "", [];
    }

    method MarkData()
      requires nesting != []
      modifies this`nesting
      ensures State() == old(State()).MarkData()
    {
      var top := |nesting| - 1;
      nesting := nesting[top := nesting[top].(hasData := true)];
    }

    /** The separator and the indentation before an array element. */
    method BeginElement()
      modifies this`out
      ensures State() == var st := old(State()); if st.Inside(ARRAY) then st.Write(st.Sep() + st.Indentation()) else st
    {
      if |nesting| > 0 && nesting[|nesting| - 1].kind == ARRAY {
        out := out + (State().Sep() + State().Indentation());
      }
    }

    /** `output(const char*)`, character by character up to the terminating NUL. */
    method OutputString(s: string)
      requires nesting != []
      modifies this
      ensures State() == old(State()).MarkData().Write(Quoted(s))
    {
      MarkData();
      OutputQuoted(s);
    }

    method OutputQuoted(s: string)
      modifies this`out
      ensures out == old(out) + Quoted(s)
    {
      hide Escaped, CString, EscapeChar;
      ghost var text := "\"";
      out := out + "\"";
      var p := 0;
      EscapedStart(s);
      while p < |s| && s[p] != '\0'
        invariant 0 <= p <= |s|
        invariant out == old(out) + text
        invariant text + Escaped(CString(s[p..])) == "\"" + Escaped(CString(s))
      {
        EscapedStepAt(s, p);
        var c := s[p];
        EscapeCases(c);
        if c == '\"' || c == '\\' {
          out := out + ['\\', c];
        } else if c == '\n' {
          out := out + "\\n";
        } else {
          out := out + [c];
        }
        text := text + EscapeChar(c);
        p := p + 1;
      }
      EscapedEnd(s, p);
      out := out + "\"";
    }

    method PutString(s: string)
      requires enabled ==> nesting != []
      modifies this
      ensures State() == if enabled then Put(old(State()), Text(s)) else old(State())
    {
      if enabled {
        BeginElement();
        OutputString(s);
      }
    }

    method PutBool(b: bool)
      modifies this
      ensures State() == if enabled then Put(old(State()), Boolean(b)) else old(State())
    {
      if enabled {
        BeginElement();
        out := out + if b then "true" else "false";
      }
    }

    method PutStartObject()
      modifies this
      ensures State() == if enabled then Put(old(State()), StartObject) else old(State())
    {
      if enabled {
        BeginElement();
        out := out + "{\n";
        nesting := nesting + [ScopeInfo(OBJECT, false)];
      }
    }

    method PutStartArray()
      modifies this
      ensures State() == if enabled then Put(old(State()), StartArray) else old(State())
    {
      if enabled {
        BeginElement();
        out := out + "[\n";
        nesting := nesting + [ScopeInfo(ARRAY, false)];
      }
    }

    method PutEndObject()
      requires enabled ==> State().Inside(OBJECT)
      modifies this
      ensures State() == if enabled then Put(old(State()), EndObject) else old(State())
    {
      if enabled {
        nesting := nesting[..|nesting| - 1];
        out := out + ("\n" + State().Indentation() + "}");
        if nesting != [] {
          MarkData();
        } else {
          out := out + "\n";
        }
      }
    }

    /** The one operation that pops even without an output stream, so it needs an open array. */
    method PutEndArray()
      requires enabled && State().Inside(ARRAY)
      modifies this
      ensures State() == Put(old(State()), EndArray)
    {
      var s := if nesting[|nesting| - 1].hasData then "\n" else "";
      nesting := nesting[..|nesting| - 1];
      out := out + (s + State().Indentation() + "]");
      if nesting != [] {
        MarkData();
      }
    }

    /** The key of a property; its value is written next. */
    method PutKey(key: string)
      requires nesting != [] && enabled
      modifies this
      ensures State()
              == var st := old(State());
                 var element := if st.Inside(ARRAY) then st.Write(st.Sep() + st.Indentation()) else st;
                 PutSimple(element.Write(element.Sep() + element.Indentation()).MarkData(), Text(key)).Write(" : ")
    {
      BeginElement();
      out := out + (State().Sep() + State().Indentation());
      MarkData();
      PutString(key);
      out := out + " : ";
    }

    method PutPropertyString(key: string, value: string)
      requires enabled ==> nesting != []
      modifies this
      ensures State() == if enabled then Put(old(State()), Property(key, Text(value))) else old(State())
    {
      if enabled {
        PutKey(key);
        PutString(value);
      }
    }

    method PutPropertyBool(key: string, value: bool)
      requires enabled ==> nesting != []
      modifies this
      ensures State() == if enabled then Put(old(State()), Property(key, Boolean(value))) else old(State())
    {
      if enabled {
        PutKey(key);
        PutBool(value);
      }
    }

    method PutPropertyObject(key: string)
      requires enabled ==> nesting != []
      modifies this
      ensures State() == if enabled then Put(old(State()), Property(key, StartObject)) else old(State())
    {
      if enabled {
        PutKey(key);
        PutStartObject();
      }
    }

    method PutPropertyArray(key: string)
      requires enabled ==> nesting != []
      modifies this
      ensures State() == if enabled then Put(old(State()), Property(key, StartArray)) else old(State())
    {
      if enabled {
        PutKey(key);
        PutStartArray();
      }
    }
  }

  lemma EscapedStepAt(s: string, p: nat)
    requires p < |s| && s[p] != '\0'
    ensures Escaped(CString(s[p..])) == EscapeChar(s[p]) + Escaped(CString(s[p + 1..]))
  {
    assert s[p..][1..] == s[p + 1..];
  }

  lemma EscapedStart(s: string)
    ensures Escaped(CString(s[0..])) == Escaped(CString(s))
  {
    assert s[0..] == s;
  }

  lemma EscapeCases(c: char)
    ensures EscapeChar(c) == if c == '\"' || c == '\\' then ['\\', c] else if c == '\n' then "\\n" else [c]
  {
  }

  lemma EscapedEnd(s: string, p: nat)
    requires p == |s| || (p < |s| && s[p] == '\0')
    ensures Escaped(CString(s[p..])) == ""
  {
  }

  // ---------- Values as tokens ----------

  function First(v: Json): Token {
    match v
    case Str(s) => Text(s)
    case Bool(b) => Boolean(b)
    case Arr(_) => StartArray
    case Obj(_) => StartObject
  }

  function Rest(v: Json): seq<Token> {
    match v
    case Arr(es) => ElemsTokens(es) + [EndArray]
    case Obj(ps) => PropsTokens(ps) + [EndObject]
    case _ => []
  }

  function ElemsTokens(es: Elems): seq<Token> {
    match es
    case NoElem => []
    case Elem(head, tail) => [First(head)] + Rest(head) + ElemsTokens(tail)
  }

  function PropsTokens(ps: Props): seq<Token> {
    match ps
    case NoProp => []
    case Prop(key, value, rest) => [Property(key, First(value))] + Rest(value) + PropsTokens(rest)
  }

  lemma {:induction false} RunConcat(st: PrinterState, a: seq<Token>, b: seq<Token>)
    ensures Run(st, a + b) == match Run(st, a) case None => None case Some(mid) => Run(mid, b)
    decreases |a|
  {
    if a == [] {
      assert a + b == b;
    } else {
      assert (a + b)[0] == a[0] && (a + b)[1..] == a[1..] + b;
      if Accepts(st, a[0]) {
        RunConcat(Put(st, a[0]), a[1..], b);
      }
    }
  }

  lemma RunOne(st: PrinterState, t: Token)
    requires Accepts(st, t)
    ensures Run(st, [t]) == Some(Put(st, t))
  {
  }

  /** The printer after a value written where its first token goes, a root object being followed by a line end. */
  function Written(st: PrinterState, v: Json): PrinterState {
    var text := st.Write(ValueText(v, |st.nesting|));
    var end := if v.Obj? && st.nesting == [] then text.Write("\n") else text;
    if AddsData(v) then end.MarkData() else end
  }

  /** The innermost scope, with a mark if it has data. */
  function Marked(st: PrinterState, hasData: bool): PrinterState {
    if hasData then st.MarkData() else st
  }

  function HasDataNow(st: PrinterState): bool {
    st.nesting != [] && st.nesting[|st.nesting| - 1].hasData
  }

  lemma {:induction false} ValueWritten(st: PrinterState, v: Json)
    requires v.Str? ==> st.nesting != []
    ensures Run(Output(st, First(v)), Rest(v)) == Some(Written(st, v))
    decreases v, 0
  {
    match v {
      case Str(_) =>
      case Bool(_) =>
      case Arr(es) =>
        var inner := Output(st, StartArray);
        ElemsWritten(inner, es);
        RunConcat(inner, ElemsTokens(es), [EndArray]);
        ArrayClosed(st, es);
      case Obj(ps) =>
        var inner := Output(st, StartObject);
        PropsWritten(inner, ps);
        RunConcat(inner, PropsTokens(ps), [EndObject]);
        ObjectClosed(st, ps);
    }
  }

  lemma RegroupScope(out: string, open: string, text: string, newline: string, indent: string, close: string)
    ensures out + open + text + (newline + indent + close) == out + (open + text + newline + indent + close)
  {
  }

  lemma ArrayClosed(st: PrinterState, es: Elems)
    ensures var inner := Output(st, StartArray);
            var text := ElemsText(es, |inner.nesting|, HasDataNow(inner));
            var full := Marked(inner.Write(text), HasData(es, HasDataNow(inner)));
            Accepts(full, EndArray) && Run(full, [EndArray]) == Some(Written(st, Arr(es)))
  {
    var d := |st.nesting|;
    var text, newline := ElemsText(es, d + 1, false), if HasData(es, false) then "\n" else "";
    var inner := Output(st, StartArray);
    var full := Marked(inner.Write(text), HasData(es, false));
    assert HasDataNow(inner) == false && |inner.nesting| == d + 1;
    assert ValueText(Arr(es), d) == "[\n" + text + newline + Indent(d) + "]";
    hide ElemsText, ValueText, HasData, Indent;
    assert full.Pop() == PrinterState(full.out, st.nesting);
    RegroupScope(st.out, "[\n", text, newline, Indent(d), "]");
    CloseArray(full, st, Arr(es));
  }

  lemma CloseArray(full: PrinterState, st: PrinterState, v: Json)
    requires full.Inside(ARRAY) && v.Arr? && full.Pop().nesting == st.nesting
    requires full.out + ((if HasDataNow(full) then "\n" else "") + Indent(|st.nesting|) + "]")
             == st.out + ValueText(v, |st.nesting|)
    ensures Run(full, [EndArray]) == Some(Written(st, v))
  {
    hide ValueText, Indent;
    RunOne(full, EndArray);
  }

  lemma ObjectClosed(st: PrinterState, ps: Props)
    ensures var inner := Output(st, StartObject);
            var text := PropsText(ps, |inner.nesting|, HasDataNow(inner));
            var full := Marked(inner.Write(text), HasDataNow(inner) || ps.Prop?);
            Accepts(full, EndObject) && Run(full, [EndObject]) == Some(Written(st, Obj(ps)))
  {
    var d := |st.nesting|;
    var text := PropsText(ps, d + 1, false);
    var inner := Output(st, StartObject);
    var full := Marked(inner.Write(text), ps.Prop?);
    assert HasDataNow(inner) == false && |inner.nesting| == d + 1;
    assert ValueText(Obj(ps), d) == "{\n" + text + "\n" + Indent(d) + "}";
    hide PropsText, ValueText, Indent;
    assert full.nesting[..d] == st.nesting;
    RegroupScope(st.out, "{\n", text, "\n", Indent(d), "}");
    assert full.Pop() == PrinterState(full.out, st.nesting);
    assert full.Pop().Write("\n" + Indent(d) + "}") == st.Write(ValueText(Obj(ps), d));
    CloseObject(full, st, Obj(ps));
  }

  lemma CloseObject(full: PrinterState, st: PrinterState, v: Json)
    requires full.Inside(OBJECT) && v.Obj? && |full.nesting| == |st.nesting| + 1
    requires full.Pop().Write("\n" + Indent(|st.nesting|) + "}") == st.Write(ValueText(v, |st.nesting|))
    ensures Run(full, [EndObject]) == Some(Written(st, v))
  {
    hide ValueText, Indent;
    assert full.Pop().nesting == st.nesting;
    RunOne(full, EndObject);
  }

  lemma {:induction false} HasDataStays(es: Elems)
    ensures HasData(es, true)
  {
    if es.Elem? {
      HasDataStays(es.tail);
    }
  }

  /** What is written before the innermost scope's next element or member. */
  function Begun(st: PrinterState): PrinterState {
    st.Write(st.Sep() + st.Indentation())
  }

  lemma {:induction false} ElemsWritten(st: PrinterState, es: Elems)
    requires st.Inside(ARRAY)
    ensures Run(st, ElemsTokens(es))
            == Some(Marked(st.Write(ElemsText(es, |st.nesting|, HasDataNow(st))), HasData(es, HasDataNow(st))))
    decreases es, 0
  {
    match es {
      case NoElem =>
        assert HasDataNow(st) ==> st.MarkData() == st;
        assert st.out + "" == st.out;
      case Elem(head, tail) =>
        var element := Begun(st);
        var next := Written(element, head);
        ValueWritten(element, head);
        ElemsWritten(next, tail);
        RunElem(st, head, ElemsTokens(tail));
        ElemText(st, head, tail);
    }
  }

  lemma RunElem(st: PrinterState, head: Json, more: seq<Token>)
    requires st.Inside(ARRAY) && Run(Output(Begun(st), First(head)), Rest(head)) == Some(Written(Begun(st), head))
    ensures Run(st, [First(head)] + Rest(head) + more) == Run(Written(Begun(st), head), more)
  {
    hide Written, Output, ValueText;
    var tokens := [First(head)] + Rest(head) + more;
    assert tokens[0] == First(head) && tokens[1..] == Rest(head) + more;
    assert Put(st, First(head)) == Output(Begun(st), First(head));
    RunConcat(Output(Begun(st), First(head)), Rest(head), more);
  }

  lemma RegroupOut(out: string, separator: string, indent: string, text: string, more: string)
    ensures out + (separator + indent) + text + more == out + (separator + indent + text + more)
    ensures out + (separator + indent) + text == out + (separator + indent + text)
  {
  }

  lemma ElemNesting(st: PrinterState, head: Json)
    requires st.Inside(ARRAY)
    ensures var next := Written(Begun(st), head);
            && |next.nesting| == |st.nesting| && next.Inside(ARRAY)
            && next.MarkData().nesting == st.MarkData().nesting
            && (!AddsData(head) ==> next.nesting == st.nesting)
            && HasDataNow(next) == (HasDataNow(st) || AddsData(head))
            && next.out == st.out + (Separator(HasDataNow(st)) + Indent(|st.nesting|)) + ValueText(head, |st.nesting|)
  {
    hide ValueText, Indent, Separator;
  }

  lemma ElemText(st: PrinterState, head: Json, tail: Elems)
    requires st.Inside(ARRAY)
    ensures var next := Written(Begun(st), head);
            var depth, hasData := |st.nesting|, HasDataNow(st);
            && next.Inside(ARRAY) && |next.nesting| == depth && HasDataNow(next) == (hasData || AddsData(head))
            && Marked(next.Write(ElemsText(tail, depth, HasDataNow(next))), HasData(tail, HasDataNow(next)))
               == Marked(st.Write(ElemsText(Elem(head, tail), depth, hasData)), HasData(Elem(head, tail), hasData))
  {
    hide ValueText, ElemsText, Indent, HasData, Separator, Written, Begun, AddsData, Marked, HasDataNow;
    var depth, hasData := |st.nesting|, HasDataNow(st);
    var text, more := ValueText(head, depth), ElemsText(tail, depth, hasData || AddsData(head));
    ElemsTextStep(head, tail, depth, hasData);
    HasDataStays(tail);
    ElemNesting(st, head);
    RegroupOut(st.out, Separator(hasData), Indent(depth), text, more);
    var next := Written(Begun(st), head);
    MarkedEqual(next.Write(more), st.Write(Separator(hasData) + Indent(depth) + text + more),
                HasData(tail, hasData || AddsData(head)));
  }

  lemma MarkedEqual(a: PrinterState, b: PrinterState, hasData: bool)
    requires a.out == b.out && a.MarkData().nesting == b.MarkData().nesting && (!hasData ==> a.nesting == b.nesting)
    ensures Marked(a, hasData) == Marked(b, hasData)
  {
  }

  lemma {:induction false} PropsWritten(st: PrinterState, ps: Props)
    requires st.Inside(OBJECT)
    ensures Run(st, PropsTokens(ps))
            == Some(Marked(st.Write(PropsText(ps, |st.nesting|, HasDataNow(st))), HasDataNow(st) || ps.Prop?))
    decreases ps, 0
  {
    match ps {
      case NoProp =>
        assert HasDataNow(st) ==> st.MarkData() == st;
        assert st.out + "" == st.out;
      case Prop(key, value, rest) =>
        var member := Member(st, key);
        ValueWritten(member, value);
        PropsWritten(Written(member, value), rest);
        RunProp(st, key, value, PropsTokens(rest));
        PropText(st, key, value, rest);
    }
  }

  /** The printer where a member's value goes. */
  function Member(st: PrinterState, key: string): PrinterState {
    Begun(st).MarkData().Write(Quoted(key)).Write(" : ")
  }

  lemma RunProp(st: PrinterState, key: string, value: Json, more: seq<Token>)
    requires st.Inside(OBJECT)
    requires Run(Output(Member(st, key), First(value)), Rest(value)) == Some(Written(Member(st, key), value))
    ensures Run(st, [Property(key, First(value))] + Rest(value) + more) == Run(Written(Member(st, key), value), more)
  {
    hide Written, ValueText, Quoted, Indent, Separator, First, Rest;
    FirstIsValue(value);
    var tokens := [Property(key, First(value))] + Rest(value) + more;
    assert tokens[0] == Property(key, First(value)) && tokens[1..] == Rest(value) + more;
    assert Begun(st).MarkData().MarkData() == Begun(st).MarkData();
    assert Put(st, tokens[0]) == Output(Member(st, key), First(value));
    RunConcat(Output(Member(st, key), First(value)), Rest(value), more);
  }

  lemma RegroupMember(out: string, separator: string, indent: string, key: string, text: string, more: string)
    ensures out + (separator + indent) + key + " : " + text + more
            == out + (separator + indent + key + " : " + text + more)
    ensures out + (separator + indent) + key + " : " + text == out + (separator + indent + key + " : " + text)
  {
  }

  lemma FirstIsValue(v: Json)
    ensures IsValueToken(First(v))
  {
  }

  lemma PropText(st: PrinterState, key: string, value: Json, rest: Props)
    requires st.Inside(OBJECT)
    ensures var next := Written(Member(st, key), value);
            var depth := |st.nesting|;
            && next.Inside(OBJECT) && |next.nesting| == depth && HasDataNow(next)
            && Marked(next.Write(PropsText(rest, depth, true)), true)
               == Marked(st.Write(PropsText(Prop(key, value, rest), depth, HasDataNow(st))), true)
  {
    hide ValueText, PropsText, Indent, Quoted, Separator, Written, Member;
    var depth, hasData := |st.nesting|, HasDataNow(st);
    var text, more := ValueText(value, depth), PropsText(rest, depth, true);
    PropsTextStep(key, value, rest, depth, hasData);
    MemberNesting(st, key, value);
    RegroupMember(st.out, Separator(hasData), Indent(depth), Quoted(key), text, more);
  }

  lemma MemberNesting(st: PrinterState, key: string, value: Json)
    requires st.Inside(OBJECT)
    ensures var next := Written(Member(st, key), value);
            && next.nesting == st.MarkData().nesting == next.MarkData().nesting
            && next.out == st.out + (Separator(HasDataNow(st)) + Indent(|st.nesting|)) + Quoted(key) + " : "
                           + ValueText(value, |st.nesting|)
  {
    hide ValueText, Quoted, Indent, Separator;
  }

  /** The printer's text for a whole value, an object or an array: it is accepted, it closes all scopes, and it is JSON
      if and only if the value is readable; a parser then reads the value with its strings cut, and so the value itself
      if and only if it is clean. */
  lemma PrintedIsParsedIff(v: Json)
    requires v.Obj? || v.Arr?
    ensures var r := Run(PrinterState("", []), [First(v)] + Rest(v));
            && r.Some? && r.value.nesting == []
            && r.value.out == ValueText(v, 0) + (if v.Obj? then "\n" else "")
            && ParseDocument(r.value.out) == (if Readable(v) then Some(Cut(v)) else None)
            && (ParseDocument(r.value.out) == Some(v) <==> Clean(v))
  {
    var st := PrinterState("", []);
    ValueWritten(st, v);
    RunWhole(v);
    hide Clean, Readable, Cut, ParseDocument, Rest, Run, First, Output;
    var end := if v.Obj? then "\n" else "";
    WrittenWhole(v);
    DocumentRead(v, end);
    RoundTripIff(v, end);
  }

  lemma RunWhole(v: Json)
    requires v.Obj? || v.Arr?
    ensures var st := PrinterState("", []);
            Run(st, [First(v)] + Rest(v)) == Run(Output(st, First(v)), Rest(v))
  {
    hide Rest;
    var tokens := [First(v)] + Rest(v);
    assert tokens[0] == First(v) && tokens[1..] == Rest(v);
  }

  lemma WrittenWhole(v: Json)
    ensures Written(PrinterState("", []), v)
            == PrinterState(ValueText(v, 0) + if v.Obj? then "\n" else "", [])
  {
    hide ValueText;
    assert "" + ValueText(v, 0) == ValueText(v, 0) == ValueText(v, 0) + "";
  }

  // ---------- Driving the printer over a value ----------

  lemma RunHead(st: PrinterState, t: Token, more: seq<Token>)
    ensures Run(st, [t] + more) == if Accepts(st, t) then Run(Put(st, t), more) else None
  {
    assert ([t] + more)[1..] == more;
  }

  /** A token, then more tokens, then others. */
  lemma RunThree(st: PrinterState, t: Token, middle: seq<Token>, more: seq<Token>)
    ensures Run(st, [t] + middle + more)
            == if !Accepts(st, t) then None
               else match Run(Put(st, t), middle) case None => None case Some(mid) => Run(mid, more)
  {
    assert [t] + middle + more == [t] + (middle + more);
    RunHead(st, t, middle + more);
    if Accepts(st, t) {
      RunConcat(Put(st, t), middle, more);
    }
  }

  method WriteElems(stream: OutputStream, es: Elems)
    requires stream.enabled && Run(stream.State(), ElemsTokens(es)).Some?
    modifies stream
    ensures Some(stream.State()) == Run(old(stream.State()), ElemsTokens(es))
    decreases es, 0
  {
    if es.Elem? {
      hide Run, Put;
      ElemsTokensStep(es);
      RunThree(stream.State(), First(es.head), Rest(es.head), ElemsTokens(es.tail));
      match es.head {
        case Str(s) => stream.PutString(s);
        case Bool(b) => stream.PutBool(b);
        case Arr(_) => stream.PutStartArray();
        case Obj(_) => stream.PutStartObject();
      }
      WriteRest(stream, es.head);
      WriteElems(stream, es.tail);
    } else {
      RunNone(stream.State());
    }
  }

  lemma RunNone(st: PrinterState)
    ensures Run(st, []) == Some(st) && ElemsTokens(NoElem) == [] && PropsTokens(NoProp) == []
  {
  }

  lemma ElemsTokensStep(es: Elems)
    requires es.Elem?
    ensures ElemsTokens(es) == [First(es.head)] + Rest(es.head) + ElemsTokens(es.tail)
  {
  }

  lemma PropsTokensStep(ps: Props)
    requires ps.Prop?
    ensures PropsTokens(ps) == [Property(ps.key, First(ps.value))] + Rest(ps.value) + PropsTokens(ps.rest)
  {
  }

  method WriteProps(stream: OutputStream, ps: Props)
    requires stream.enabled && Run(stream.State(), PropsTokens(ps)).Some?
    modifies stream
    ensures Some(stream.State()) == Run(old(stream.State()), PropsTokens(ps))
    decreases ps, 0
  {
    if ps.Prop? {
      hide Run;
      PropsTokensStep(ps);
      RunThree(stream.State(), Property(ps.key, First(ps.value)), Rest(ps.value), PropsTokens(ps.rest));
      match ps.value {
        case Str(s) => stream.PutPropertyString(ps.key, s);
        case Bool(b) => stream.PutPropertyBool(ps.key, b);
        case Arr(_) => stream.PutPropertyArray(ps.key);
        case Obj(_) => stream.PutPropertyObject(ps.key);
      }
      WriteRest(stream, ps.value);
      WriteProps(stream, ps.rest);
    } else {
      RunNone(stream.State());
    }
  }

  /** The tokens of a value after its first. */
  method WriteRest(stream: OutputStream, v: Json)
    requires stream.enabled && Run(stream.State(), Rest(v)).Some?
    modifies stream
    ensures Some(stream.State()) == Run(old(stream.State()), Rest(v))
    decreases v, 1
  {
    match v {
      case Arr(es) =>
        RunConcat(stream.State(), ElemsTokens(es), [EndArray]);
        WriteElems(stream, es);
        RunHead(stream.State(), EndArray, []);
        stream.PutEndArray();
      case Obj(ps) =>
        RunConcat(stream.State(), PropsTokens(ps), [EndObject]);
        WriteProps(stream, ps);
        RunHead(stream.State(), EndObject, []);
        stream.PutEndObject();
      case _ =>
        RunNone(stream.State());
    }
  }

  /** A whole document: an object or an array, printed and read back. */
  method Print(v: Json) returns (text: string)
    requires v.Obj? || v.Arr?
    ensures ParseDocument(text) == if Readable(v) then Some(Cut(v)) else None
    ensures ParseDocument(text) == Some(v) <==> Clean(v)
    ensures Regular(v) ==> text == LinesText(LinesOf(v, 0, "", "")) + (if v.Obj? then "\n" else "")
  {
    PrintedIsParsedIff(v);
    if Regular(v) {
      DocumentLines(v);
    }
    var stream := new OutputStream(true);
    RunHead(stream.State(), First(v), Rest(v));
    hide Clean, Readable, Cut, ParseDocument, Rest, Run, ValueText, LinesText, LinesOf, Regular;
    if v.Obj? {
      stream.PutStartObject();
    } else {
      stream.PutStartArray();
    }
    WriteRest(stream, v);
    text := stream.out;
  }

  lemma BooleanText(b: bool)
    ensures ValueText(Bool(b), 1) == (if b then "true" else "false") && Indent(1) == "  " && Indent(0) == ""
  {
  }

  lemma BooleanElem(b: bool, tail: Elems)
    ensures ElemsText(Elem(Bool(b), tail), 1, false)
            == "  " + (if b then "true" else "false") + ElemsText(tail, 1, false)
  {
    hide ElemsText, ValueText, Indent, HasData;
    BooleanText(b);
    ElemsTextStep(Bool(b), tail, 1, false);
  }

  lemma BooleansText()
    ensures ValueText(Arr(Elem(Bool(true), Elem(Bool(false), NoElem))), 0) == "[\n  true  false]"
  {
    hide ElemsText, Indent;
    BooleanElem(true, Elem(Bool(false), NoElem));
    BooleanElem(false, NoElem);
    NoElemsText();
    BooleanText(true);
  }

  lemma NoElemsText()
    ensures ElemsText(NoElem, 1, false) == ""
  {
  }

  /** After a boolean at the head of an array the comma is missing. */
  lemma BooleanLosesComma()
    ensures var v := Arr(Elem(Bool(true), Elem(Bool(false), NoElem)));
            var r := Run(PrinterState("", []), [First(v)] + Rest(v));
            r.Some? && r.value.out == "[\n  true  false]" && ParseDocument(r.value.out) == None
  {
    var v := Arr(Elem(Bool(true), Elem(Bool(false), NoElem)));
    assert !Readable(v);
    BooleansText();
    hide *;
    PrintedIsParsedIff(v);
    WholeText(v);
  }

  /** A tab is written as it is, which section 7 of RFC 8259 does not allow. */
  lemma TabIsNotEscaped()
    ensures var v := Arr(Elem(Str("\t"), NoElem));
            var r := Run(PrinterState("", []), [First(v)] + Rest(v));
            r.Some? && ParseDocument(r.value.out) == None
  {
    assert CString("\t") == "\t" by {
      assert "\t"[1..] == "";
    }
    assert !CleanString("\t");
    hide Run, First, Rest, ParseDocument;
    PrintedIsParsedIff(Arr(Elem(Str("\t"), NoElem)));
  }

  lemma WholeText(v: Json)
    requires v.Arr?
    ensures var r := Run(PrinterState("", []), [First(v)] + Rest(v));
            r.Some? && r.value.out == ValueText(v, 0)
  {
    ValueWritten(PrinterState("", []), v);
    RunWhole(v);
    hide Run, First, Rest, ValueText;
    WrittenWhole(v);
  }
}
