/**
 Unfinished JSON documents: an object at the root, or an array that is the value of one of its members, with what was
 printed so far. Whether a document is completed depends only on what the parser makes of the text to come.
 */
module JsonPrefixes {
  import opened JsonText
  import opened JsonParsers
  import opened JsonRoundTrips
  import opened Options

  /** What is left of the text after the open object is closed; `hasData` says whether a member precedes. */
  function AfterProps(hasData: bool, text: string): Option<string> {
    if !hasData then
      match ParseProps(text, true)
      case None => None
      case Some((_, rest)) => Some(rest)
    else
      var s := SkipWhite(text);
      if s == "" then None
      else if s[0] == '}' then Some(s[1..])
      else if s[0] == ',' then
        match ParseProps(s[1..], false)
        case None => None
        case Some((_, rest)) => Some(rest)
      else None
  }

  /** The same for the open array. */
  function AfterElems(hasData: bool, text: string): Option<string> {
    if !hasData then
      match ParseElems(text, true)
      case None => None
      case Some((_, rest)) => Some(rest)
    else
      var s := SkipWhite(text);
      if s == "" then None
      else if s[0] == ']' then Some(s[1..])
      else if s[0] == ',' then
        match ParseElems(s[1..], false)
        case None => None
        case Some((_, rest)) => Some(rest)
      else None
  }

  predicate ObjectEnds(hasData: bool, text: string) {
    var rest := AfterProps(hasData, text);
    rest.Some? && SkipWhite(rest.value) == ""
  }

  predicate ArrayEnds(hasData: bool, text: string) {
    var rest := AfterElems(hasData, text);
    rest.Some? && ObjectEnds(true, rest.value)
  }

  predicate Parses(text: string) {
    ParseDocument(text).Some?
  }

  /** `out` is a document up to a place in its root object. */
  ghost predicate InObject(out: string, hasData: bool) {
    forall text: string {:trigger ObjectEnds(hasData, text)} :: Parses(out + text) <==> ObjectEnds(hasData, text)
  }

  /** `out` is a document up to a place in an array that is the value of a member of its root object. */
  ghost predicate InArray(out: string, hasData: bool) {
    forall text: string {:trigger ArrayEnds(hasData, text)} :: Parses(out + text) <==> ArrayEnds(hasData, text)
  }

  // ---------- What is printed keeps the place ----------

  lemma WhiteBeforeProps(w: string, text: string, first: bool)
    requires White(w)
    ensures ParseProps(w + text, first).Some? <==> ParseProps(text, first).Some?
    ensures ParseProps(w + text, first).Some? ==> ParseProps(w + text, first).value.1 == ParseProps(text, first).value.1
  {
    SkipsWhite(w, text);
  }

  lemma WhiteBeforeElems(w: string, text: string, first: bool)
    requires White(w)
    ensures ParseElems(w + text, first) == ParseElems(text, first)
  {
    SkipsWhite(w, text);
    ValueAfterWhite(w, text);
  }

  lemma ObjectBegun()
    ensures InObject("{\n", false)
  {
    forall text: string ensures Parses("{\n" + text) <==> ObjectEnds(false, text) {
      var s := "{\n" + text;
      assert s[1..] == "\n" + text && SkipWhite(s) == s;
      WhiteBeforeProps("\n", text, true);
      hide ParseProps;
    }
  }

  lemma AfterMember(hasData: bool, indent: string, key: string, body: string)
    requires White(indent)
    ensures AfterProps(hasData, Separator(hasData) + (indent + (Quoted(key) + (" : " + body))))
            == if !CleanString(CString(key)) then None
               else match ParseValue(body) case None => None case Some((_, after)) => AfterProps(true, after)
  {
    var text := indent + (Quoted(key) + (" : " + body));
    hide Quoted, ParseValue, ParseProps, SkipWhite;
    if hasData {
      assert ",\n" + text == "," + ("\n" + text) && (",\n" + text)[1..] == "\n" + text;
      NotWhite(",\n" + text);
      WhiteJoined("\n", indent);
      assert "\n" + text == ("\n" + indent) + (Quoted(key) + (" : " + body));
      ReadProp("\n" + indent, key, body, false);
    } else {
      assert "" + text == text;
      ReadProp(indent, key, body, true);
    }
  }

  lemma WhiteJoined(v: string, w: string)
    requires White(v) && White(w)
    ensures White(v + w)
  {
  }

  lemma AfterElement(hasData: bool, indent: string, body: string)
    requires White(indent) && body != "" && !IsWhite(body[0]) && body[0] != ']'
    ensures AfterElems(hasData, Separator(hasData) + (indent + body))
            == match ParseValue(body) case None => None case Some((_, after)) => AfterElems(true, after)
  {
    var text := indent + body;
    hide ParseValue, ParseElems, SkipWhite;
    if hasData {
      assert ",\n" + text == "," + ("\n" + text) && (",\n" + text)[1..] == "\n" + text;
      NotWhite(",\n" + text);
      WhiteJoined("\n", indent);
      assert "\n" + text == ("\n" + indent) + body;
      ReadElem("\n" + indent, body, false);
    } else {
      assert "" + text == text;
      ReadElem(indent, body, true);
    }
  }

  lemma PrintedValueRead(v: Json, depth: nat, rest: string)
    ensures ParseValue(ValueText(v, depth) + rest) == Reading(v, rest)
    ensures ValueText(v, depth) != "" && !IsWhite(ValueText(v, depth)[0]) && ValueText(v, depth)[0] != ']'
  {
    ValueRead(v, depth, rest);
    FirstChar(v, depth);
  }

  predicate ReadableMember(key: string, v: Json) {
    CleanString(CString(key)) && Readable(v)
  }

  function MemberText(hasData: bool, key: string, v: Json, depth: nat): string {
    Separator(hasData) + Indent(depth) + Quoted(key) + " : " + ValueText(v, depth)
  }

  /** What a printed member does: it is passed over, or stops the parser. */
  lemma AfterMemberText(hasData: bool, key: string, v: Json, depth: nat, text: string)
    ensures ObjectEnds(hasData, MemberText(hasData, key, v, depth) + text)
            <==> ReadableMember(key, v) && ObjectEnds(true, text)
  {
    hide AfterProps, ParseValue, SkipWhite, Quoted, ValueText, Indent, Readable, Cut, CleanString, CString;
    IndentIsWhite(depth);
    NestMember(Separator(hasData), Indent(depth), Quoted(key), ValueText(v, depth), text);
    PrintedValueRead(v, depth, text);
    AfterMember(hasData, Indent(depth), key, ValueText(v, depth) + text);
  }

  lemma MemberAdded(out: string, hasData: bool, key: string, v: Json, depth: nat)
    requires InObject(out, hasData) && ReadableMember(key, v)
    ensures InObject(out + MemberText(hasData, key, v, depth), true)
  {
    hide MemberText, ReadableMember, ObjectEnds, Parses;
    var member := MemberText(hasData, key, v, depth);
    forall text: string ensures Parses(out + member + text) <==> ObjectEnds(true, text) {
      assert out + member + text == out + (member + text);
      AfterMemberText(hasData, key, v, depth, text);
      assert ObjectEnds(hasData, member + text) <==> ObjectEnds(true, text);
    }
  }

  lemma NestMember(a: string, b: string, c: string, d: string, e: string)
    ensures a + b + c + " : " + d + e == a + (b + (c + (" : " + (d + e))))
  {
  }

  lemma ArrayOpened(out: string, hasData: bool, key: string, depth: nat)
    requires InObject(out, hasData) && CleanString(CString(key))
    ensures InArray(out + (Separator(hasData) + Indent(depth) + Quoted(key) + " : " + "[\n"), false)
  {
    hide AfterProps, ParseDocument, ParseValue, SkipWhite, Quoted, Indent, CleanString, CString, Parses, AfterElems;
    IndentIsWhite(depth);
    var member := Separator(hasData) + Indent(depth) + Quoted(key) + " : " + "[\n";
    forall text: string ensures Parses(out + member + text) <==> ArrayEnds(false, text) {
      NestMember(Separator(hasData), Indent(depth), Quoted(key), "[\n", text);
      assert out + member + text == out + (member + text);
      ArrayRead(text);
      AfterMember(hasData, Indent(depth), key, "[\n" + text);
      assert ObjectEnds(hasData, member + text) <==> ArrayEnds(false, text);
    }
  }

  lemma ArrayRead(text: string)
    ensures match ParseValue("[\n" + text)
            case None => AfterElems(false, text) == None
            case Some((_, after)) => AfterElems(false, text) == Some(after)
  {
    var s := "[\n" + text;
    assert s[1..] == "\n" + text;
    NotWhite(s);
    WhiteBeforeElems("\n", text, true);
    hide ParseElems, SkipWhite;
  }

  function ElemText(hasData: bool, v: Json, depth: nat): string {
    Separator(hasData) + Indent(depth) + ValueText(v, depth)
  }

  /** What a printed element does: it is passed over, or stops the parser. */
  lemma AfterElemText(hasData: bool, v: Json, depth: nat, text: string)
    ensures ArrayEnds(hasData, ElemText(hasData, v, depth) + text) <==> Readable(v) && ArrayEnds(true, text)
  {
    hide AfterElems, ObjectEnds, ParseValue, SkipWhite, ValueText, Indent, Readable, Cut;
    IndentIsWhite(depth);
    var body := ValueText(v, depth) + text;
    RegroupElem(Separator(hasData), Indent(depth), ValueText(v, depth), text, "");
    PrintedValueRead(v, depth, text);
    assert body[0] == ValueText(v, depth)[0];
    AfterElement(hasData, Indent(depth), body);
  }

  lemma ElemAdded(out: string, hasData: bool, v: Json, depth: nat)
    requires InArray(out, hasData) && Readable(v)
    ensures InArray(out + ElemText(hasData, v, depth), true)
  {
    hide ElemText, Readable, ArrayEnds, Parses;
    var elem := ElemText(hasData, v, depth);
    forall text: string ensures Parses(out + elem + text) <==> ArrayEnds(true, text) {
      assert out + elem + text == out + (elem + text);
      AfterElemText(hasData, v, depth, text);
      assert ArrayEnds(hasData, elem + text) <==> ArrayEnds(true, text);
    }
  }

  lemma ArrayEnded(out: string, hasData: bool, w: string)
    requires InArray(out, hasData) && White(w)
    ensures InObject(out + (w + "]"), true)
  {
    hide ObjectEnds, ParseDocument, ParseElems, SkipWhite, Parses;
    forall text: string ensures Parses(out + (w + "]") + text) <==> ObjectEnds(true, text) {
      assert out + (w + "]") + text == out + (w + "]" + text);
      BracketRead(hasData, w, text);
      assert ArrayEnds(hasData, w + "]" + text) <==> ObjectEnds(true, text);
    }
  }

  lemma BracketRead(hasData: bool, w: string, text: string)
    requires White(w)
    ensures AfterElems(hasData, w + "]" + text) == Some(text)
  {
    var s := "]" + text;
    assert w + "]" + text == w + s && s[1..] == text;
    NotWhite(s);
    SkipsWhite(w, s);
    ReadNoElem(w, text);
    hide ParseElems;
  }

  lemma DocumentClosed(out: string, hasData: bool, w: string)
    requires InObject(out, hasData) && White(w)
    ensures Parses(out + (w + "}\n"))
  {
    var s := "}" + "\n";
    assert w + "}\n" == w + s == w + "}" + "\n" && s[1..] == "\n";
    NotWhite(s);
    SkipsWhite(w, s);
    SkipsWhite("\n", "");
    assert "\n" + "" == "\n";
    ReadNoProp(w, "\n");
    assert ObjectEnds(hasData, w + "}\n");
    hide ParseProps, ParseDocument, Parses;
  }

  // ---------- What breaks the document ----------

  /** A brace where a member, a comma or the end of the object is due: no text after it completes the document. */
  lemma BrokenByBrace(out: string, hasData: bool, text: string)
    requires InObject(out, hasData)
    ensures !Parses(out + ("{" + text))
  {
    NotWhite("{" + text);
    assert !ObjectEnds(hasData, "{" + text);
    hide Parses;
  }

  /** A comma where an element is due. */
  lemma BrokenByComma(out: string, hasData: bool, indent: string, text: string)
    requires InArray(out, hasData) && White(indent)
    ensures !Parses(out + (Separator(hasData) + (indent + ("," + text))))
  {
    hide SkipWhite, Parses, ParseElems, ParseDocument, ObjectEnds;
    NoElemAtComma(text);
    AfterElement(hasData, indent, "," + text);
    assert !ArrayEnds(hasData, Separator(hasData) + (indent + ("," + text)));
  }

  /** A member or an element that is not readable: no text after it completes the document either. */
  lemma BrokenByMember(out: string, hasData: bool, key: string, v: Json, depth: nat, text: string)
    requires InObject(out, hasData) && !ReadableMember(key, v)
    ensures !Parses(out + (MemberText(hasData, key, v, depth) + text))
  {
    hide MemberText, ReadableMember, ObjectEnds, Parses;
    AfterMemberText(hasData, key, v, depth, text);
    assert !ObjectEnds(hasData, MemberText(hasData, key, v, depth) + text);
  }

  lemma BrokenByElem(out: string, hasData: bool, v: Json, depth: nat, text: string)
    requires InArray(out, hasData) && !Readable(v)
    ensures !Parses(out + (ElemText(hasData, v, depth) + text))
  {
    hide ElemText, Readable, ArrayEnds, Parses;
    AfterElemText(hasData, v, depth, text);
    assert !ArrayEnds(hasData, ElemText(hasData, v, depth) + text);
  }

  lemma NoElemAtComma(text: string)
    ensures ParseValue("," + text) == None
  {
    NotWhite("," + text);
  }
}
