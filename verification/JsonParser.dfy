/**
 A reference parser for the JSON grammar of RFC 8259: white space (section 2), the boolean literals (3), objects (4),
 arrays (5) and strings (7). Numbers, null and \u escapes are never printed and are not accepted.
 */
module JsonParsers {
  import opened JsonText
  import opened Options

  predicate IsWhite(c: char) {
    c == ' ' || c == '\t' || c == '\n' || c == '\r'
  }

  function SkipWhite(s: string): (r: string)
    ensures |r| <= |s|
  {
    if s != "" && IsWhite(s[0]) then SkipWhite(s[1..]) else s
  }

  /** What a two-character escape stands for. */
  function Unescape(c: char): Option<char> {
    match c
    case '\"' => Some('\"') case '\\' => Some('\\') case '/' => Some('/') case 'b' => Some('\U{0008}')
    case 'f' => Some('\U{000C}') case 'n' => Some('\n') case 'r' => Some('\r') case 't' => Some('\t')
    case _ => None
  }

  /** The rest of a string after its opening quote: the characters, and what follows the closing quote. */
  function ParseChars(s: string): (r: Option<(string, string)>)
    ensures r.Some? ==> |r.value.1| < |s|
  {
    if s == "" then None
    else if s[0] == '\"' then Some(("", s[1..]))
    else if s[0] == '\\' then
      if |s| < 2 then None
      else
        var c :- Unescape(s[1]);
        var (chars, rest) :- ParseChars(s[2..]);
        Some(([c] + chars, rest))
    else if s[0] < ' ' then None
    else
      var (chars, rest) :- ParseChars(s[1..]);
      Some(([s[0]] + chars, rest))
  }

  /** A value and the text after it. */
  function ParseValue(text: string): (r: Option<(Json, string)>)
    ensures r.Some? ==> |r.value.1| < |text|
    decreases |text|, 0
  {
    var s := SkipWhite(text);
    if s == "" then None
    else if s[0] == '\"' then
      var (chars, rest) :- ParseChars(s[1..]);
      Some((Str(chars), rest))
    else if s[0] == '[' then
      var (es, rest) :- ParseElems(s[1..], true);
      Some((Arr(es), rest))
    else if s[0] == '{' then
      var (ps, rest) :- ParseProps(s[1..], true);
      Some((Obj(ps), rest))
    else if "true" <= s then Some((Bool(true), s[4..]))
    else if "false" <= s then Some((Bool(false), s[5..]))
    else None
  }

  /** The elements of an array up to its closing bracket; only a `first` one may be missing. */
  function ParseElems(text: string, first: bool): (r: Option<(Elems, string)>)
    ensures r.Some? ==> |r.value.1| < |text|
    decreases |text|, 1
  {
    var s := SkipWhite(text);
    if first && s != "" && s[0] == ']' then Some((NoElem, s[1..]))
    else
      var (v, afterValue) :- ParseValue(text);
      var s := SkipWhite(afterValue);
      if s == "" then None
      else if s[0] == ']' then Some((Elem(v, NoElem), s[1..]))
      else if s[0] == ',' then
        var (es, rest) :- ParseElems(s[1..], false);
        Some((Elem(v, es), rest))
      else None
  }

  /** The members of an object up to its closing brace. */
  function ParseProps(text: string, first: bool): (r: Option<(Props, string)>)
    ensures r.Some? ==> |r.value.1| < |text|
    decreases |text|, 1
  {
    var s := SkipWhite(text);
    if s == "" then None
    else if first && s[0] == '}' then Some((NoProp, s[1..]))
    else if s[0] != '\"' then None
    else
      var (key, afterKey) :- ParseChars(s[1..]);
      var s := SkipWhite(afterKey);
      if s == "" || s[0] != ':' then None
      else
        var (v, afterValue) :- ParseValue(s[1..]);
        var s := SkipWhite(afterValue);
        if s == "" then None
        else if s[0] == '}' then Some((Prop(key, v, NoProp), s[1..]))
        else if s[0] == ',' then
          var (ps, rest) :- ParseProps(s[1..], false);
          Some((Prop(key, v, ps), rest))
        else None
  }

  /** A JSON text: one value with nothing but white space around it. */
  function ParseDocument(text: string): Option<Json> {
    var (v, rest) :- ParseValue(text);
    if SkipWhite(rest) == "" then Some(v) else None
  }

  // ---------- White space between tokens ----------

  ghost predicate White(s: string) {
    forall i :: 0 <= i < |s| ==> IsWhite(s[i])
  }

  lemma {:induction false} SkipsWhite(w: string, s: string)
    requires White(w)
    ensures SkipWhite(w + s) == SkipWhite(s)
  {
    if w == "" {
      assert w + s == s;
    } else {
      assert (w + s)[1..] == w[1..] + s;
      SkipsWhite(w[1..], s);
    }
  }

  lemma NotWhite(s: string)
    requires s != "" && !IsWhite(s[0])
    ensures SkipWhite(s) == s
  {
  }

  lemma ValueAfterWhite(w: string, s: string)
    requires White(w)
    ensures ParseValue(w + s) == ParseValue(s)
  {
    SkipsWhite(w, s);
  }

  // ---------- Strings ----------

  lemma EscapedStep(c: char, after: string)
    ensures ParseChars(EscapeChar(c) + after)
            == if c < ' ' && c != '\n' then None
               else match ParseChars(after)
                    case None => None
                    case Some((chars, r)) => Some(([c] + chars, r))
  {
    var e := EscapeChar(c);
    if |e| == 2 {
      assert (e + after)[2..] == after;
    } else {
      assert (e + after)[1..] == after;
    }
  }

  /** A quoted string is read back exactly when it is clean. */
  lemma {:induction false} QuotedChars(s: string, rest: string)
    ensures ParseChars(Escaped(s) + "\"" + rest) == if CleanString(s) then Some((s, rest)) else None
  {
    if s == "" {
      assert Escaped(s) + "\"" + rest == "\"" + rest;
      assert ("\"" + rest)[1..] == rest;
    } else {
      var after := Escaped(s[1..]) + "\"" + rest;
      assert Escaped(s) + "\"" + rest == EscapeChar(s[0]) + after;
      EscapedStep(s[0], after);
      QuotedChars(s[1..], rest);
      assert [s[0]] + s[1..] == s;
    }
  }

  /** A printed string is read back up to its first NUL, or not at all. */
  lemma QuotedText(s: string, rest: string)
    ensures Quoted(s) != "" && Quoted(s)[0] == '\"'
    ensures ParseChars((Quoted(s) + rest)[1..]) == if CleanString(CString(s)) then Some((CString(s), rest)) else None
  {
    QuotedChars(CString(s), rest);
    assert (Quoted(s) + rest)[1..] == Escaped(CString(s)) + "\"" + rest;
  }
}
