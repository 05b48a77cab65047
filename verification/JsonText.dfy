/**
 The JSON values that zimcheck reports, and the text its printer gives them (src/zimcheck/json_tools.cpp).
 */
module JsonText {

  datatype Json = Str(s: string) | Bool(b: bool) | Arr(elems: Elems) | Obj(props: Props)
  datatype Elems = NoElem | Elem(head: Json, tail: Elems)
  datatype Props = NoProp | Prop(key: string, value: Json, rest: Props)

  // ---------- Text of strings ----------

  /** The characters before the first NUL: strings are printed through `c_str()`. */
  function CString(s: string): string {
    if s == "" || s[0] == '\0' then "" else [s[0]] + CString(s[1..])
  }

  function EscapeChar(c: char): string {
    if c == '\"' || c == '\\' then ['\\', c] else if c == '\n' then ['\\', 'n'] else [c]
  }

  function Escaped(s: string): string {
    if s == "" then "" else EscapeChar(s[0]) + Escaped(s[1..])
  }

  function Quoted(s: string): string {
    "\"" + Escaped(CString(s)) + "\""
  }

  /** What is printed of a string ends at its first NUL. */
  lemma {:induction false} CStringEnds(s: string)
    ensures CString(s) <= s && forall i :: 0 <= i < |CString(s)| ==> s[i] != '\0'
    ensures |CString(s)| < |s| ==> s[|CString(s)|] == '\0'
  {
    if s != "" {
      CStringEnds(s[1..]);
      assert s == [s[0]] + s[1..];
    }
  }

  /** Each character is written by itself: quotes, backslashes and newlines after a backslash, others as they are. */
  lemma {:induction false} EscapedChars(a: string, b: string)
    ensures Escaped(a + b) == Escaped(a) + Escaped(b)
    ensures |a| == 1 ==>
              Escaped(a) == if a == "\"" then "\\\"" else if a == "\\" then "\\\\" else if a == "\n" then "\\n" else a
  {
    if a == "" {
      assert a + b == b;
    } else {
      assert (a + b)[1..] == a[1..] + b;
      EscapedChars(a[1..], b);
      hide EscapeChar;
      OneChar(a[0]);
    }
  }

  lemma OneChar(c: char)
    ensures EscapeChar(c)
            == if c == '\"' then "\\\"" else if c == '\\' then "\\\\" else if c == '\n' then "\\n" else [c]
  {
  }

  // ---------- Text of values ----------

  function Indent(depth: nat): string {
    seq(2 * depth, _ => ' ')
  }

  function Separator(hasData: bool): string {
    if hasData then ",\n" else ""
  }

  /** Booleans do not count as data of the array they are in. */
  function AddsData(v: Json): bool {
    !v.Bool?
  }

  function HasData(es: Elems, hasData: bool): bool {
    match es
    case NoElem => hasData
    case Elem(head, tail) => HasData(tail, hasData || AddsData(head))
  }

  /** A value written inside `depth` open scopes. */
  function ValueText(v: Json, depth: nat): string {
    match v
    case Str(s) => Quoted(s)
    case Bool(b) => if b then "true" else "false"
    case Arr(es) =>
      "[\n" + ElemsText(es, depth + 1, false) + (if HasData(es, false) then "\n" else "") + Indent(depth) + "]"
    case Obj(ps) => "{\n" + PropsText(ps, depth + 1, false) + "\n" + Indent(depth) + "}"
  }

  function ElemsText(es: Elems, depth: nat, hasData: bool): string {
    match es
    case NoElem => ""
    case Elem(head, tail) =>
      Separator(hasData) + Indent(depth) + ValueText(head, depth) + ElemsText(tail, depth, hasData || AddsData(head))
  }

  function PropsText(ps: Props, depth: nat, hasData: bool): string {
    match ps
    case NoProp => ""
    case Prop(key, value, rest) =>
      Separator(hasData) + Indent(depth) + Quoted(key) + " : " + ValueText(value, depth) + PropsText(rest, depth, true)
  }

  lemma ElemsTextStep(head: Json, tail: Elems, depth: nat, hasData: bool)
    ensures ElemsText(Elem(head, tail), depth, hasData)
         == Separator(hasData) + Indent(depth) + ValueText(head, depth)
            + ElemsText(tail, depth, hasData || AddsData(head))
    ensures HasData(Elem(head, tail), hasData) == HasData(tail, hasData || AddsData(head))
  {
  }

  lemma PropsTextStep(key: string, value: Json, rest: Props, depth: nat, hasData: bool)
    ensures PropsText(Prop(key, value, rest), depth, hasData)
         == Separator(hasData) + Indent(depth) + Quoted(key) + " : " + ValueText(value, depth)
            + PropsText(rest, depth, true)
  {
  }

  // ---------- What a reader gets ----------

  /** Every string as it is printed: cut at its first NUL. */
  function Cut(v: Json): Json {
    match v
    case Str(s) => Str(CString(s))
    case Bool(_) => v
    case Arr(es) => Arr(CutElems(es))
    case Obj(ps) => Obj(CutProps(ps))
  }

  function CutElems(es: Elems): Elems {
    match es
    case NoElem => NoElem
    case Elem(head, tail) => Elem(Cut(head), CutElems(tail))
  }

  function CutProps(ps: Props): Props {
    match ps
    case NoProp => NoProp
    case Prop(key, value, rest) => Prop(CString(key), Cut(value), CutProps(rest))
  }

  /** No control character other than the newline. */
  predicate CleanString(s: string) {
    s != "" ==> (s[0] >= ' ' || s[0] == '\n') && CleanString(s[1..])
  }

  /** The text printed for the value is JSON: no string has another control character before its first NUL, and no array
      with more elements has a boolean at its head, after which no separator is printed. */
  predicate Readable(v: Json) {
    match v
    case Str(s) => CleanString(CString(s))
    case Bool(_) => true
    case Arr(es) => ReadableElems(es) && !(es.Elem? && es.head.Bool? && es.tail.Elem?)
    case Obj(ps) => ReadableProps(ps)
  }

  predicate ReadableElems(es: Elems) {
    es.Elem? ==> Readable(es.head) && ReadableElems(es.tail)
  }

  predicate ReadableProps(ps: Props) {
    ps.Prop? ==> CleanString(CString(ps.key)) && Readable(ps.value) && ReadableProps(ps.rest)
  }

  /** The text is moreover that of the value: no string has a control character but the newline at all. */
  predicate Clean(v: Json) {
    match v
    case Str(s) => CleanString(s)
    case Bool(_) => true
    case Arr(es) => CleanElems(es) && !(es.Elem? && es.head.Bool? && es.tail.Elem?)
    case Obj(ps) => CleanProps(ps)
  }

  predicate CleanElems(es: Elems) {
    es.Elem? ==> Clean(es.head) && CleanElems(es.tail)
  }

  predicate CleanProps(ps: Props) {
    ps.Prop? ==> CleanString(ps.key) && Clean(ps.value) && CleanProps(ps.rest)
  }

  lemma {:induction false} CleanStringMeans(s: string)
    ensures CleanString(s) <==> forall i :: 0 <= i < |s| ==> s[i] >= ' ' || s[i] == '\n'
  {
    if s != "" {
      CleanStringMeans(s[1..]);
      assert forall i :: 0 <= i < |s| - 1 ==> s[1..][i] == s[i + 1];
    }
  }

  lemma {:induction false} CleanStringIff(s: string)
    ensures CleanString(s) <==> CleanString(CString(s)) && CString(s) == s
  {
    if s != "" {
      CleanStringIff(s[1..]);
      assert CString(s) != "" ==> CString(s)[1..] == CString(s[1..]);
    }
  }

  /** Clean values are those that are readable and not cut. */
  lemma {:induction false} CleanIff(v: Json)
    ensures Clean(v) <==> Readable(v) && Cut(v) == v
    decreases v
  {
    match v {
      case Str(s) => CleanStringIff(s);
      case Bool(_) =>
      case Arr(es) => CleanElemsIff(es);
      case Obj(ps) => CleanPropsIff(ps);
    }
  }

  lemma {:induction false} CleanElemsIff(es: Elems)
    ensures CleanElems(es) <==> ReadableElems(es) && CutElems(es) == es
    decreases es
  {
    if es.Elem? {
      CleanIff(es.head);
      CleanElemsIff(es.tail);
    }
  }

  lemma {:induction false} CleanPropsIff(ps: Props)
    ensures CleanProps(ps) <==> ReadableProps(ps) && CutProps(ps) == ps
    decreases ps
  {
    if ps.Prop? {
      CleanStringIff(ps.key);
      CleanIff(ps.value);
      CleanPropsIff(ps.rest);
    }
  }
}
