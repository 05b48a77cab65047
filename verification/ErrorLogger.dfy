/**
 The logger of zimcheck (`ErrorLogger` of src/zimcheck/checks.cpp): test results, and in JSON mode a report written
 piece by piece into one object. `addMsg` holds a mutex, so the messages of concurrent workers arrive one by one, in
 some order.
 */
module ErrorLoggers {
  import opened JsonText
  import opened JsonParsers
  import opened JsonPrefixes
  import opened JsonPrinters
  import opened JsonRoundTrips
  import opened Options

  datatype TestType =
    | CHECKSUM | INTEGRITY | EMPTY | METADATA | FAVICON | MAIN_PAGE | REDUNDANT | URL_INTERNAL | URL_EXTERNAL
    | URL_EMPTY | REDIRECT

  const ALL_TESTS: seq<TestType> := [
    CHECKSUM, INTEGRITY, EMPTY, METADATA, FAVICON, MAIN_PAGE, REDUNDANT, URL_INTERNAL, URL_EXTERNAL, URL_EMPTY, REDIRECT
  ]

  function Index(t: TestType): (i: nat)
    ensures i < |ALL_TESTS| && ALL_TESTS[i] == t
  {
    match t
    case CHECKSUM => 0 case INTEGRITY => 1 case EMPTY => 2 case METADATA => 3 case FAVICON => 4 case MAIN_PAGE => 5
    case REDUNDANT => 6 case URL_INTERNAL => 7 case URL_EXTERNAL => 8 case URL_EMPTY => 9 case REDIRECT => 10
  }

  function Name(t: TestType): string {
    match t
    case CHECKSUM => "checksum" case INTEGRITY => "integrity" case EMPTY => "empty" case METADATA => "metadata"
    case FAVICON => "favicon" case MAIN_PAGE => "main_page" case REDUNDANT => "redundant"
    case URL_INTERNAL => "url_internal" case URL_EXTERNAL => "url_external" case URL_EMPTY => "url_empty"
    case REDIRECT => "redirect"
  }

  predicate IsError(t: TestType) {
    t != REDUNDANT && t != URL_EMPTY
  }

  /** `params` are the message's parameters in key order, each a string or a list. */
  datatype Op =
    | AddInfo(key: string, value: Json) | StartLogStream | EndLogStream
    | SetTestResult(test: TestType, status: bool) | AddMsg(test: TestType, message: string, params: Props)

  function LogMembers(test: TestType, message: string, params: Props): Props {
    Prop("check", Str(Name(test)),
         Prop("level", Str(if IsError(test) then "ERROR" else "WARNING"), Prop("message", Str(message), params)))
  }

  // ---------- Test results ----------

  /** The last status recorded for a test; a message records a failure. */
  function LastStatus(ops: seq<Op>, t: TestType): bool {
    if ops == [] then true
    else
      var op := ops[|ops| - 1];
      if op.SetTestResult? && op.test == t then op.status
      else if op.AddMsg? && op.test == t then false
      else LastStatus(ops[..|ops| - 1], t)
  }

  /** The operation records a failure of the test. */
  predicate Fails(op: Op, t: TestType) {
    (op.AddMsg? && op.test == t) || op == Op.SetTestResult(t, false)
  }

  /** Every failure of the test was followed by a success. */
  ghost predicate Recovered(ops: seq<Op>, t: TestType) {
    forall i :: 0 <= i < |ops| && Fails(ops[i], t) ==> exists j :: i < j < |ops| && ops[j] == Op.SetTestResult(t, true)
  }

  /** So it was for every test but those whose failures are only warnings. */
  ghost predicate NoErrorStands(ops: seq<Op>) {
    forall t: TestType :: t != REDUNDANT && t != URL_EMPTY ==> Recovered(ops, t)
  }

  lemma {:induction false} LastStatusIff(ops: seq<Op>, t: TestType)
    ensures LastStatus(ops, t) <==> Recovered(ops, t)
  {
    if ops != [] {
      var init, op := ops[..|ops| - 1], ops[|ops| - 1];
      LastStatusIff(init, t);
      hide LastStatus;
      StatusStep(ops, t);
      if op == Op.SetTestResult(t, true) {
        forall i | 0 <= i < |ops| && Fails(ops[i], t)
          ensures exists j :: i < j < |ops| && ops[j] == Op.SetTestResult(t, true)
        {
          assert ops[|ops| - 1] == op;
        }
      } else if !Fails(op, t) {
        RecoveredStep(ops, t);
      }
    }
  }

  lemma StatusStep(ops: seq<Op>, t: TestType)
    requires ops != []
    ensures var op := ops[|ops| - 1];
            LastStatus(ops, t) == if Fails(op, t) then false else if op == Op.SetTestResult(t, true) then true
                                  else LastStatus(ops[..|ops| - 1], t)
  {
  }

  lemma RecoveredStep(ops: seq<Op>, t: TestType)
    requires ops != [] && !Fails(ops[|ops| - 1], t) && ops[|ops| - 1] != Op.SetTestResult(t, true)
    ensures Recovered(ops, t) <==> Recovered(ops[..|ops| - 1], t)
  {
    var init := ops[..|ops| - 1];
    if Recovered(ops, t) {
      forall i | 0 <= i < |init| && Fails(init[i], t)
        ensures exists j :: i < j < |init| && init[j] == Op.SetTestResult(t, true)
      {
        var j :| i < j < |ops| && ops[j] == Op.SetTestResult(t, true);
        assert init[j] == ops[j];
      }
    }
    if Recovered(init, t) {
      forall i | 0 <= i < |ops| && Fails(ops[i], t)
        ensures exists j :: i < j < |ops| && ops[j] == Op.SetTestResult(t, true)
      {
        assert init[i] == ops[i];
        var j :| i < j < |init| && init[j] == Op.SetTestResult(t, true);
        assert ops[j] == init[j];
      }
    }
  }

  // ---------- The report ----------

  function NextOpen(open: bool, op: Op): bool {
    if op.StartLogStream? then true else if op.EndLogStream? then false else open
  }

  function OpenAfter(ops: seq<Op>): bool {
    if ops == [] then false else NextOpen(OpenAfter(ops[..|ops| - 1]), ops[|ops| - 1])
  }

  /** Messages go to the open log array, other information outside it. */
  predicate Allowed(open: bool, op: Op) {
    (op.AddMsg? ==> open) && (op.AddInfo? ==> !open)
  }

  ghost predicate Protocol(ops: seq<Op>) {
    forall i :: 0 <= i < |ops| ==> Allowed(OpenAfter(ops[..i]), ops[i])
  }

  /** The tokens an operation writes. */
  function OpTokens(open: bool, op: Op): seq<Token> {
    match op
    case AddInfo(key, value) => [Property(key, First(value))] + Rest(value)
    case StartLogStream => if open then [] else [Property("logs", StartArray)]
    case EndLogStream => if open then [EndArray] else []
    case SetTestResult(_, _) => []
    case AddMsg(test, message, params) => [StartObject] + Rest(Obj(LogMembers(test, message, params)))
  }

  function TokensOf(ops: seq<Op>): seq<Token> {
    if ops == [] then []
    else TokensOf(ops[..|ops| - 1]) + OpTokens(OpenAfter(ops[..|ops| - 1]), ops[|ops| - 1])
  }

  /** The members of the report: what a closed stream still collects from the operations to come. */
  function Members(ops: seq<Op>): Props
    decreases |ops|, 0
  {
    if ops == [] then NoProp
    else match ops[0]
         case AddInfo(key, value) => Prop(key, value, Members(ops[1..]))
         case StartLogStream => Prop("logs", Arr(Messages(ops[1..])), Members(AfterLog(ops[1..])))
         case _ => Members(ops[1..])
  }

  /** The messages up to the end of the open log array, or of the run. */
  function Messages(ops: seq<Op>): Elems
    decreases |ops|, 0
  {
    if ops == [] || ops[0].EndLogStream? then NoElem
    else if ops[0].AddMsg? then
      Elem(Obj(LogMembers(ops[0].test, ops[0].message, ops[0].params)), Messages(ops[1..]))
    else Messages(ops[1..])
  }

  /** The operations after the log array is closed. */
  function AfterLog(ops: seq<Op>): (rest: seq<Op>)
    ensures |rest| <= |ops|
  {
    if ops == [] then [] else if ops[0].EndLogStream? then ops[1..] else AfterLog(ops[1..])
  }

  function Report(ops: seq<Op>): (report: Json)
    ensures report.Obj?
  {
    Obj(Members(ops))
  }

  // The tokens of operations from a given state on, with the log array closed at the end.
  function Onward(open: bool, ops: seq<Op>): seq<Token>
    decreases |ops|
  {
    if ops == [] then (if open then [EndArray] else [])
    else OpTokens(open, ops[0]) + Onward(NextOpen(open, ops[0]), ops[1..])
  }

  ghost predicate ProtocolFrom(open: bool, ops: seq<Op>)
    decreases |ops|
  {
    ops != [] ==> Allowed(open, ops[0]) && ProtocolFrom(NextOpen(open, ops[0]), ops[1..])
  }

  /** In order, the tokens are those of the report. */
  lemma {:induction false} OnwardIsReport(open: bool, ops: seq<Op>)
    requires ProtocolFrom(open, ops)
    ensures Onward(open, ops)
            == if open then ElemsTokens(Messages(ops)) + [EndArray] + PropsTokens(Members(AfterLog(ops)))
               else PropsTokens(Members(ops))
    decreases |ops|
  {
    if ops == [] {
      NoTokens();
    } else {
      var op, rest := ops[0], ops[1..];
      OnwardIsReport(NextOpen(open, op), rest);
      if open {
        OpenStep(op, rest);
      } else {
        ClosedStep(op, rest);
      }
    }
  }

  lemma NoTokens()
    ensures ElemsTokens(NoElem) == [] && PropsTokens(NoProp) == []
  {
  }

  /** One operation while the log array is open. */
  lemma OpenStep(op: Op, rest: seq<Op>)
    requires !op.AddInfo?
    ensures var ops := [op] + rest;
            OpTokens(true, op)
            + (if op.EndLogStream? then PropsTokens(Members(rest))
               else ElemsTokens(Messages(rest)) + [EndArray] + PropsTokens(Members(AfterLog(rest))))
            == ElemsTokens(Messages(ops)) + [EndArray] + PropsTokens(Members(AfterLog(ops)))
  {
    var ops := [op] + rest;
    assert ops[0] == op && ops[1..] == rest;
    hide PropsTokens, Members, Rest, First;
    if op.AddMsg? {
      var message := Obj(LogMembers(op.test, op.message, op.params));
      MessageTokens(message, Messages(rest));
      Reassociate([StartObject] + Rest(message), ElemsTokens(Messages(rest)), [EndArray],
                  PropsTokens(Members(AfterLog(rest))));
    } else if op.EndLogStream? {
      NoTokens();
    }
  }

  lemma Reassociate(a: seq<Token>, b: seq<Token>, c: seq<Token>, d: seq<Token>)
    ensures a + (b + c + d) == a + b + c + d
  {
  }

  lemma MessageTokens(message: Json, more: Elems)
    requires message.Obj?
    ensures ElemsTokens(Elem(message, more)) == [StartObject] + Rest(message) + ElemsTokens(more)
  {
  }

  /** One operation while it is closed. */
  lemma ClosedStep(op: Op, rest: seq<Op>)
    requires !op.AddMsg?
    ensures var ops := [op] + rest;
            OpTokens(false, op)
            + (if op.StartLogStream?
               then ElemsTokens(Messages(rest)) + [EndArray] + PropsTokens(Members(AfterLog(rest)))
               else PropsTokens(Members(rest)))
            == PropsTokens(Members(ops))
  {
    var ops := [op] + rest;
    assert ops[0] == op && ops[1..] == rest;
    if op.StartLogStream? {
      var v := Arr(Messages(rest));
      hide Messages, Members, ElemsTokens, AfterLog;
      assert Rest(v) == ElemsTokens(v.elems) + [EndArray];
      var start := Property("logs", StartArray);
      Reassociate([start], ElemsTokens(v.elems), [EndArray], PropsTokens(Members(AfterLog(rest))));
      assert [start] + ElemsTokens(v.elems) + [EndArray] == [Property("logs", First(v))] + Rest(v);
    }
  }

  // ---------- From prefixes to the whole run ----------

  lemma {:induction false} TokensThenOnward(a: seq<Op>, b: seq<Op>)
    ensures TokensOf(a) + Onward(OpenAfter(a), b) == Onward(false, a + b)
    decreases |a|
  {
    hide *;
    if a == [] {
      assert a + b == b;
      NothingYet();
    } else {
      var init, op := a[..|a| - 1], a[|a| - 1];
      TokensThenOnward(init, [op] + b);
      assert init + ([op] + b) == a + b;
      TokensStep(a);
      OnwardStep(OpenAfter(init), op, b);
      var x, y, z := TokensOf(init), OpTokens(OpenAfter(init), op), Onward(OpenAfter(a), b);
      assert x + (y + z) == x + y + z;
    }
  }

  lemma NothingMore(open: bool)
    ensures Onward(open, []) == if open then [EndArray] else []
  {
  }

  lemma NothingYet()
    ensures TokensOf([]) == [] && !OpenAfter([])
  {
  }

  lemma TokensStep(a: seq<Op>)
    requires a != []
    ensures var init, op := a[..|a| - 1], a[|a| - 1];
            TokensOf(a) == TokensOf(init) + OpTokens(OpenAfter(init), op)
            && OpenAfter(a) == NextOpen(OpenAfter(init), op)
  {
  }

  lemma OnwardStep(open: bool, op: Op, b: seq<Op>)
    ensures Onward(open, [op] + b) == OpTokens(open, op) + Onward(NextOpen(open, op), b)
  {
    assert ([op] + b)[1..] == b;
  }

  lemma {:induction false} ProtocolOnward(a: seq<Op>, b: seq<Op>)
    requires Protocol(a + b)
    ensures ProtocolFrom(OpenAfter(a), b)
    decreases |b|
  {
    if b != [] {
      var a' := a + [b[0]];
      assert a' + b[1..] == a + b;
      assert (a + b)[|a|] == b[0] && (a + b)[..|a|] == a;
      assert a'[..|a|] == a;
      ProtocolOnward(a', b[1..]);
    }
  }

  /** However a run stops, closing the log array and the object leaves the tokens of the report. */
  lemma ClosedIsReport(ops: seq<Op>)
    requires Protocol(ops)
    ensures [StartObject] + TokensOf(ops) + (if OpenAfter(ops) then [EndArray] else []) + [EndObject]
            == [First(Report(ops))] + Rest(Report(ops))
  {
    var close: seq<Token> := if OpenAfter(ops) then [EndArray] else [];
    hide *;
    NothingYet();
    NothingMore(OpenAfter(ops));
    TokensThenOnward(ops, []);
    assert ops + [] == ops && [] + ops == ops;
    ProtocolOnward([], ops);
    OnwardIsReport(false, ops);
    var tokens, members := TokensOf(ops), PropsTokens(Members(ops));
    assert tokens + close == members;
    ReportTokens(ops);
    assert [StartObject] + tokens + close + [EndObject] == [StartObject] + (tokens + close) + [EndObject];
  }

  lemma ReportTokens(ops: seq<Op>)
    ensures [First(Report(ops))] + Rest(Report(ops)) == [StartObject] + PropsTokens(Members(ops)) + [EndObject]
  {
    hide Members, PropsTokens;
  }

  // ---------- What is in the report ----------

  /** All messages of a run, in order, as log objects. */
  function LogObjects(ops: seq<Op>): seq<Json> {
    if ops == [] then []
    else if ops[0].AddMsg? then
      [Obj(LogMembers(ops[0].test, ops[0].message, ops[0].params))] + LogObjects(ops[1..])
    else LogObjects(ops[1..])
  }

  function ElemsSeq(es: Elems): seq<Json> {
    match es
    case NoElem => []
    case Elem(head, tail) => [head] + ElemsSeq(tail)
  }

  /** The elements of the "logs" members, in order. */
  function LogsIn(ps: Props): seq<Json> {
    match ps
    case NoProp => []
    case Prop(key, value, rest) =>
      (if key == "logs" && value.Arr? then ElemsSeq(value.elems) else []) + LogsIn(rest)
  }

  /** One log object per message, none lost, repeated or reordered. */
  lemma {:induction false} OneObjectPerMessage(open: bool, ops: seq<Op>)
    requires ProtocolFrom(open, ops)
    requires forall i :: 0 <= i < |ops| && ops[i].AddInfo? ==> ops[i].key != "logs"
    ensures LogObjects(ops) == if open then ElemsSeq(Messages(ops)) + LogsIn(Members(AfterLog(ops)))
                               else LogsIn(Members(ops))
    decreases |ops|
  {
    hide LogMembers, AfterLog;
    if ops != [] {
      var op, rest := ops[0], ops[1..];
      OneObjectPerMessage(NextOpen(open, op), rest);
      if op.EndLogStream? {
        LogEnds(ops);
      } else if open {
        LogGoesOn(ops);
        var logs := LogsIn(Members(AfterLog(rest)));
        if op.AddMsg? {
          var v := Obj(LogMembers(op.test, op.message, op.params));
          assert [v] + (ElemsSeq(Messages(rest)) + logs) == [v] + ElemsSeq(Messages(rest)) + logs;
        }
      }
    }
  }

  lemma LogEnds(ops: seq<Op>)
    requires ops != [] && ops[0].EndLogStream?
    ensures AfterLog(ops) == ops[1..] && ElemsSeq(Messages(ops)) == []
    ensures ElemsSeq(Messages(ops)) + LogsIn(Members(ops[1..])) == LogsIn(Members(ops[1..]))
  {
  }

  lemma LogGoesOn(ops: seq<Op>)
    requires ops != [] && !ops[0].EndLogStream?
    ensures AfterLog(ops) == AfterLog(ops[1..])
  {
  }

  /** Everything that an operation has printed can be read back. */
  predicate CleanOp(op: Op) {
    (op.AddInfo? ==> CleanString(op.key) && Clean(op.value))
    && (op.AddMsg? ==> CleanString(op.message) && CleanProps(op.params))
  }

  lemma {:induction false} CleanReport(ops: seq<Op>)
    requires forall i :: 0 <= i < |ops| ==> CleanOp(ops[i])
    ensures CleanProps(Members(ops)) && Clean(Arr(Messages(ops))) && CleanProps(Members(AfterLog(ops)))
    decreases |ops|
  {
    if ops != [] {
      CleanReport(ops[1..]);
      if ops[0].AddMsg? {
        CleanMembers(ops[0].test, ops[0].message, ops[0].params);
      }
      assert CleanString("logs") by {
        assert CleanString("") && CleanString("s") && CleanString("gs") && CleanString("ogs");
      }
    }
  }

  lemma NothingCut(s: string)
    requires CleanString(s)
    ensures CString(s) == s
  {
    CleanStringIff(s);
  }

  lemma NamePrintable(test: TestType)
    ensures forall i :: 0 <= i < |Name(test)| ==> Name(test)[i] >= ' '
  {
  }

  /** The text of an operation is JSON in its place. */
  predicate ReadableOp(op: Op) {
    (op.AddInfo? ==> ReadableMember(op.key, op.value))
    && (op.AddMsg? ==> CleanString(CString(op.message)) && ReadableProps(op.params))
  }

  lemma ReadableMembers(test: TestType, message: string, params: Props)
    ensures Readable(Obj(LogMembers(test, message, params)))
            <==> ReadableOp(Op.AddMsg(test, message, params))
  {
    var level := if IsError(test) then "ERROR" else "WARNING";
    hide CleanString, CString, Name;
    NamePrintable(test);
    forall s | s in {Name(test), level, "check", "level", "message"} ensures CleanString(CString(s)) {
      Printable(s);
      NothingCut(s);
    }
    var inner := Prop("message", Str(message), params);
    var middle := Prop("level", Str(level), inner);
    assert ReadableProps(inner) <==> CleanString(CString(message)) && ReadableProps(params);
    assert ReadableProps(middle) <==> ReadableProps(inner);
    assert ReadableProps(Prop("check", Str(Name(test)), middle)) <==> ReadableProps(middle);
  }

  lemma CleanMembers(test: TestType, message: string, params: Props)
    requires CleanString(message) && CleanProps(params)
    ensures Clean(Obj(LogMembers(test, message, params)))
  {
    hide CleanString, Name, IsError;
    NamePrintable(test);
    Printable(Name(test));
    Printable(if IsError(test) then "ERROR" else "WARNING");
    Printable("check");
    Printable("level");
    Printable("message");
    var inner := Prop("message", Str(message), params);
    assert CleanProps(inner);
    var middle := Prop("level", Str(if IsError(test) then "ERROR" else "WARNING"), inner);
    assert CleanProps(middle);
    assert CleanProps(Prop("check", Str(Name(test)), middle));
  }

  lemma {:induction false} Printable(s: string)
    requires forall i :: 0 <= i < |s| ==> s[i] >= ' '
    ensures CleanString(s)
  {
    if s != "" {
      Printable(s[1..]);
    }
  }

  // ---------- What a reader of the report finds ----------

  /** The operations of one kind, in order. */
  function AddMsgs(ops: seq<Op>): (messages: seq<Op>)
    ensures forall i :: 0 <= i < |messages| ==> messages[i].AddMsg?
  {
    if ops == [] then [] else (if ops[0].AddMsg? then [ops[0]] else []) + AddMsgs(ops[1..])
  }

  function AddInfos(ops: seq<Op>): (infos: seq<Op>)
    ensures forall i :: 0 <= i < |infos| ==> infos[i].AddInfo?
  {
    if ops == [] then [] else (if ops[0].AddInfo? then [ops[0]] else []) + AddInfos(ops[1..])
  }

  /** The value of the first member with this key. */
  function Value(ps: Props, key: string): Option<Json> {
    match ps
    case NoProp => None
    case Prop(k, v, rest) => if k == key then Some(v) else Value(rest, key)
  }

  /** The members that are not log arrays, in order. */
  function OtherMembers(ps: Props): seq<(string, Json)> {
    match ps
    case NoProp => []
    case Prop(key, value, rest) => (if key == "logs" && value.Arr? then [] else [(key, value)]) + OtherMembers(rest)
  }

  ghost predicate ChecksFor(value: Option<Json>, test: TestType) {
    match test
    case CHECKSUM => value == Some(Str("checksum"))
    case INTEGRITY => value == Some(Str("integrity"))
    case EMPTY => value == Some(Str("empty"))
    case METADATA => value == Some(Str("metadata"))
    case FAVICON => value == Some(Str("favicon"))
    case MAIN_PAGE => value == Some(Str("main_page"))
    case REDUNDANT => value == Some(Str("redundant"))
    case URL_INTERNAL => value == Some(Str("url_internal"))
    case URL_EXTERNAL => value == Some(Str("url_external"))
    case URL_EMPTY => value == Some(Str("url_empty"))
    case REDIRECT => value == Some(Str("redirect"))
  }

  /** The log object of a message: its test and level, its text, and after these its parameters. */
  ghost predicate IsLogObject(v: Json, test: TestType, message: string, params: Props) {
    && v.Obj? && v.props.Prop? && v.props.rest.Prop? && v.props.rest.rest.Prop?
    && ChecksFor(Value(v.props, "check"), test)
    && Value(v.props, "level") == Some(Str(if test in {REDUNDANT, URL_EMPTY} then "WARNING" else "ERROR"))
    && Value(v.props, "message") == Some(Str(CString(message)))
    && v.props.key == "check" && v.props.rest.key == "level" && v.props.rest.rest.key == "message"
    && v.props.rest.rest.rest == CutProps(params)
  }

  /** The report has one log object for each message and one other member for each piece of information, in order. */
  ghost predicate Tells(report: Json, ops: seq<Op>) {
    && report.Obj?
    && var logs, messages := LogsIn(report.props), AddMsgs(ops);
       var others, infos := OtherMembers(report.props), AddInfos(ops);
       && |logs| == |messages|
       && (forall i :: 0 <= i < |logs| ==>
             IsLogObject(logs[i], messages[i].test, messages[i].message, messages[i].params))
       && |others| == |infos|
       && forall i :: 0 <= i < |others| ==> others[i] == (CString(infos[i].key), Cut(infos[i].value))
  }

  /** The members of the report and the elements of its open log array, against the operations they come from: what is
      told while the array is closed is a member, opening it begins a member "logs" with the messages up to its end. */
  ghost predicate ReadsAs(open: bool, ops: seq<Op>, members: Props, logs: Elems)
    decreases |ops|
  {
    if ops == [] then members == NoProp && logs == NoElem
    else
      match ops[0]
      case AddInfo(key, value) =>
        && !open && members.Prop? && members.key == CString(key) && members.value == Cut(value)
        && ReadsAs(open, ops[1..], members.rest, logs)
      case AddMsg(test, message, params) =>
        && open && logs.Elem? && IsLogObject(logs.head, test, message, params)
        && ReadsAs(open, ops[1..], members, logs.tail)
      case StartLogStream =>
        if open then ReadsAs(true, ops[1..], members, logs)
        else
          && logs == NoElem && members.Prop? && members.key == "logs" && members.value.Arr?
          && ReadsAs(true, ops[1..], members.rest, members.value.elems)
      case EndLogStream => (open ==> logs == NoElem) && ReadsAs(false, ops[1..], members, logs)
      case SetTestResult(_, _) => ReadsAs(open, ops[1..], members, logs)
  }

  lemma {:induction false} ReportReads(open: bool, ops: seq<Op>)
    requires ProtocolFrom(open, ops)
    ensures ReadsAs(open, ops, CutProps(if open then Members(AfterLog(ops)) else Members(ops)),
                    if open then CutElems(Messages(ops)) else NoElem)
    decreases |ops|
  {
    hide CString, LogMembers, IsLogObject;
    if ops != [] {
      var op, rest := ops[0], ops[1..];
      ReportReads(NextOpen(open, op), rest);
      PrintedKeys();
      if op.AddMsg? {
        LogObjectIs(op.test, op.message, op.params);
      }
    }
  }

  /** No information is called "logs", as far as it is printed. */
  predicate NotCalledLogs(ops: seq<Op>) {
    forall i :: 0 <= i < |ops| && ops[i].AddInfo? ==> CString(ops[i].key) != "logs"
  }

  lemma PrintedKeys()
    ensures forall s :: s in {"check", "level", "message", "logs"} ==> CString(s) == s
  {
    hide CString, CleanString;
    forall s | s in {"check", "level", "message", "logs"} ensures CString(s) == s {
      Printable(s);
      NothingCut(s);
    }
  }

  lemma NamePrinted(test: TestType)
    ensures CString(Name(test)) == Name(test) && ChecksFor(Some(Str(Name(test))), test)
  {
    NamePrintable(test);
    Printable(Name(test));
    NothingCut(Name(test));
    hide CString, CleanString;
  }

  lemma LevelPrinted(test: TestType)
    ensures var level := if IsError(test) then "ERROR" else "WARNING";
            CString(level) == (if test in {REDUNDANT, URL_EMPTY} then "WARNING" else "ERROR")
  {
    hide CString, CleanString;
    Printable("ERROR");
    Printable("WARNING");
    NothingCut("ERROR");
    NothingCut("WARNING");
  }

  lemma LogObjectIs(test: TestType, message: string, params: Props)
    ensures IsLogObject(Cut(Obj(LogMembers(test, message, params))), test, message, params)
  {
    hide CString, Name, ChecksFor, IsError, CutProps, Value;
    PrintedKeys();
    NamePrinted(test);
    LevelPrinted(test);
    var level := Str(if IsError(test) then "ERROR" else "WARNING");
    var inner := Prop("message", Str(message), params);
    CutStep("message", Str(message), params);
    CutStep("level", level, inner);
    CutStep("check", Str(Name(test)), Prop("level", level, inner));
    var cut := CutProps(inner);
    var middle := Prop("level", Cut(level), cut);
    DifferentKeys();
    ValueStep("check", Str(Name(test)), middle, "check");
    ValueStep("check", Str(Name(test)), middle, "level");
    ValueStep("check", Str(Name(test)), middle, "message");
    ValueStep("level", Cut(level), cut, "level");
    ValueStep("level", Cut(level), cut, "message");
    ValueStep("message", Str(CString(message)), CutProps(params), "message");
  }

  lemma CutStep(key: string, value: Json, rest: Props)
    ensures CutProps(Prop(key, value, rest)) == Prop(CString(key), Cut(value), CutProps(rest))
  {
  }

  lemma ValueStep(k: string, v: Json, rest: Props, key: string)
    ensures Value(Prop(k, v, rest), key) == if k == key then Some(v) else Value(rest, key)
  {
  }

  lemma DifferentKeys()
    ensures "check" != "level" && "check" != "message" && "level" != "message"
  {
    assert "check"[0] == 'c' && "level"[0] == 'l' && "message"[0] == 'm';
  }

  /** Cutting strings changes no array to another, and makes no key "logs" that was not. */
  predicate KeysStay(ps: Props) {
    ps.Prop? ==> (CString(ps.key) == "logs" ==> ps.key == "logs") && KeysStay(ps.rest)
  }

  function CutAll(vs: seq<Json>): seq<Json> {
    seq(|vs|, i requires 0 <= i < |vs| => Cut(vs[i]))
  }

  lemma {:induction false} ElemsSeqCut(es: Elems)
    ensures ElemsSeq(CutElems(es)) == CutAll(ElemsSeq(es))
  {
    match es {
      case NoElem =>
      case Elem(head, tail) => ElemsSeqCut(tail);
    }
  }

  lemma LogsInStep(key: string, value: Json, rest: Props)
    ensures LogsIn(Prop(key, value, rest))
            == (if key == "logs" && value.Arr? then ElemsSeq(value.elems) else []) + LogsIn(rest)
  {
  }

  lemma CutAllConcat(a: seq<Json>, b: seq<Json>)
    ensures CutAll(a + b) == CutAll(a) + CutAll(b) && CutAll([]) == []
  {
  }

  lemma CutArray(v: Json)
    ensures Cut(v).Arr? <==> v.Arr?
    ensures v.Arr? ==> ElemsSeq(Cut(v).elems) == CutAll(ElemsSeq(v.elems))
  {
    if v.Arr? {
      ElemsSeqCut(v.elems);
    }
  }

  lemma {:induction false} LogsInCut(ps: Props)
    requires KeysStay(ps)
    ensures LogsIn(CutProps(ps)) == CutAll(LogsIn(ps))
  {
    hide CString, LogsIn, CutAll, Cut, ElemsSeq;
    match ps {
      case NoProp => NoLogs();
      case Prop(key, value, rest) =>
        LogsInCut(rest);
        PrintedKeys();
        CutArray(value);
        LogsInStep(key, value, rest);
        LogsInStep(CString(key), Cut(value), CutProps(rest));
        CutAllConcat(if key == "logs" && value.Arr? then ElemsSeq(value.elems) else [], LogsIn(rest));
    }
  }

  lemma NoLogs()
    ensures LogsIn(NoProp) == [] && CutAll([]) == []
  {
  }

  lemma {:induction false} MembersStay(ops: seq<Op>)
    requires NotCalledLogs(ops)
    ensures KeysStay(Members(ops)) && KeysStay(Members(AfterLog(ops)))
    decreases |ops|
  {
    if ops != [] {
      assert forall i :: 0 <= i < |ops| - 1 ==> ops[1..][i] == ops[i + 1];
      MembersStay(ops[1..]);
      hide CString;
    }
  }

  lemma {:induction false} LogObjectsOf(ops: seq<Op>)
    ensures |LogObjects(ops)| == |AddMsgs(ops)|
    ensures forall i :: 0 <= i < |LogObjects(ops)| ==>
              var m := AddMsgs(ops)[i]; LogObjects(ops)[i] == Obj(LogMembers(m.test, m.message, m.params))
  {
    hide LogMembers;
    if ops != [] {
      LogObjectsOf(ops[1..]);
    }
  }

  lemma {:induction false} OthersOf(open: bool, ops: seq<Op>)
    requires ProtocolFrom(open, ops) && NotCalledLogs(ops)
    ensures var others := OtherMembers(CutProps(if open then Members(AfterLog(ops)) else Members(ops)));
            && |others| == |AddInfos(ops)|
            && forall i :: 0 <= i < |others| ==>
                 others[i] == (CString(AddInfos(ops)[i].key), Cut(AddInfos(ops)[i].value))
    decreases |ops|
  {
    hide CString, Messages, LogMembers, Cut;
    if ops != [] {
      var op, rest := ops[0], ops[1..];
      assert forall i :: 0 <= i < |rest| ==> rest[i] == ops[i + 1];
      OthersOf(NextOpen(open, op), rest);
      PrintedKeys();
      if op.AddInfo? {
        CutArray(op.value);
      } else if op.StartLogStream? {
        CutArray(Arr(Messages(rest)));
      }
    }
  }

  lemma ReportIsRead(ops: seq<Op>)
    requires Protocol(ops)
    ensures Cut(Report(ops)).Obj? && ReadsAs(false, ops, Cut(Report(ops)).props, NoElem)
  {
    hide Members, LogMembers, ReadsAs, CutProps, Protocol;
    assert ProtocolFrom(false, ops) by {
      assert [] + ops == ops;
      ProtocolOnward([], ops);
      NothingYet();
    }
    ReportReads(false, ops);
  }

  /** Who reads the report of operations that came in their place finds exactly what they told. */
  lemma ReportTells(ops: seq<Op>)
    requires Protocol(ops) && NotCalledLogs(ops)
    ensures Tells(Cut(Report(ops)), ops)
  {
    hide Members, LogMembers, CString, LogsIn, IsLogObject, OtherMembers, AddMsgs, AddInfos;
    assert ProtocolFrom(false, ops) by {
      assert [] + ops == ops;
      ProtocolOnward([], ops);
      NothingYet();
    }
    OthersOf(false, ops);
    LogsOf(ops);
    var logs, messages := LogsIn(CutProps(Members(ops))), AddMsgs(ops);
    forall i | 0 <= i < |logs| ensures IsLogObject(logs[i], messages[i].test, messages[i].message, messages[i].params) {
      LogObjectIs(messages[i].test, messages[i].message, messages[i].params);
    }
  }

  lemma LogsOf(ops: seq<Op>)
    requires ProtocolFrom(false, ops) && NotCalledLogs(ops)
    ensures var logs := LogsIn(CutProps(Members(ops)));
            && |logs| == |AddMsgs(ops)|
            && forall i :: 0 <= i < |logs| ==>
                 var m := AddMsgs(ops)[i]; logs[i] == Cut(Obj(LogMembers(m.test, m.message, m.params)))
  {
    hide CString, LogMembers;
    PrintedKeys();
    OneObjectPerMessage(false, ops);
    MembersStay(ops);
    LogsInCut(Members(ops));
    LogObjectsOf(ops);
  }

  // ---------- The logger ----------

  const BLANK := PrinterState("", [])

  /** The scopes open between operations: the report's object, and the log array in it. */
  ghost predicate Scopes(st: PrinterState, open: bool) {
    && |st.nesting| == (if open then 2 else 1)
    && st.nesting[0].kind == OBJECT && (open ==> st.nesting[1].kind == ARRAY)
  }

  /** The tokens of an operation are accepted and keep the scopes, wherever it comes. */
  lemma OpAccepted(st: PrinterState, open: bool, op: Op)
    requires Scopes(st, open)
    ensures var r := Run(st, OpTokens(open, op)); r.Some? && Scopes(r.value, NextOpen(open, op))
  {
    hide Run, First, Rest, Quoted, ValueText, Indent, LogMembers;
    RunNone(st);
    match op {
      case AddInfo(key, value) => InfoWritten(st, key, value);
      case AddMsg(test, message, params) => MessageWritten(st, Obj(LogMembers(test, message, params)));
      case StartLogStream =>
        if !open {
          RunOne(st, Property("logs", StartArray));
        }
      case EndLogStream =>
        if open {
          RunOne(st, EndArray);
        }
      case SetTestResult(_, _) =>
    }
  }

  /** The printer where the value of a property goes. */
  function ValuePlace(st: PrinterState, key: string): PrinterState
    requires st.nesting != []
  {
    var element := if st.Inside(ARRAY) then st.Write(st.Sep() + st.Indentation()) else st;
    var keyed := PutSimple(element.Write(element.Sep() + element.Indentation()).MarkData(), Text(key)).Write(" : ");
    if keyed.Inside(ARRAY) then keyed.Write(keyed.Sep() + keyed.Indentation()) else keyed
  }

  lemma InfoWritten(st: PrinterState, key: string, value: Json)
    requires st.nesting != []
    ensures Run(st, [Property(key, First(value))] + Rest(value)) == Some(Written(ValuePlace(st, key), value))
    ensures |Written(ValuePlace(st, key), value).nesting| == |st.nesting|
    ensures forall i :: 0 <= i < |st.nesting| ==>
              Written(ValuePlace(st, key), value).nesting[i].kind == st.nesting[i].kind
  {
    hide ValueText, Quoted, Indent, Separator, First, Rest, Run;
    FirstIsValue(value);
    var place := ValuePlace(st, key);
    ValueInPlace(st, key, value);
    ValueWritten(place, value);
    RunHead(st, Property(key, First(value)), Rest(value));
  }

  lemma ValueInPlace(st: PrinterState, key: string, value: Json)
    requires st.nesting != [] && IsValueToken(First(value))
    ensures Run(st, [Property(key, First(value))] + Rest(value))
            == Run(Output(ValuePlace(st, key), First(value)), Rest(value))
  {
    hide Quoted, Indent, Separator, First, Rest;
    RunHead(st, Property(key, First(value)), Rest(value));
  }

  lemma MessageWritten(st: PrinterState, v: Json)
    requires st.nesting != [] && v.Obj?
    ensures Run(st, [StartObject] + Rest(v))
            == Some(Written(if st.Inside(ARRAY) then st.Write(st.Sep() + st.Indentation()) else st, v))
  {
    var place := if st.Inside(ARRAY) then st.Write(st.Sep() + st.Indentation()) else st;
    ValueWritten(place, v);
    RunHead(st, StartObject, Rest(v));
    hide ValueText, Indent, Separator, Rest, Run;
  }

  lemma OneProp(open: bool, key: string, value: Json)
    ensures PropsTokens(Prop(key, value, NoProp)) == OpTokens(open, Op.AddInfo(key, value))
  {
  }

  lemma OneElem(open: bool, test: TestType, message: string, params: Props)
    ensures ElemsTokens(Elem(Obj(LogMembers(test, message, params)), NoElem))
         == OpTokens(open, Op.AddMsg(test, message, params))
  {
  }

  // ---------- Exactly when the output is JSON ----------

  /** What was written so far can be completed, and how depends on the innermost scope. */
  ghost predicate Unfinished(st: PrinterState, open: bool) {
    Scopes(st, open) && if open then InArray(st.out, HasDataNow(st)) else InObject(st.out, HasDataNow(st))
  }

  /** No text to come makes it JSON. */
  ghost predicate Broken(out: string) {
    forall text: string {:trigger out + text} :: !Parses(out + text)
  }

  lemma BrokenGrows(out: string, longer: string)
    requires Broken(out) && out <= longer
    ensures Broken(longer) && !Parses(longer)
  {
    hide Parses;
    var more := longer[|out|..];
    assert longer == out + more;
    forall text: string ensures !Parses(longer + text) {
      assert longer + text == out + (more + text);
    }
  }

  lemma OutputGrows(st: PrinterState, t: Token)
    requires Accepts(st, t) && !t.Property?
    ensures st.out <= Output(st, t).out
  {
    hide Quoted, Indent;
  }

  lemma PutSimpleGrows(st: PrinterState, t: Token)
    requires Accepts(st, t) && !t.Property?
    ensures st.out <= PutSimple(st, t).out
  {
    OutputGrows(st, t);
    OutputGrows(st.Write(st.Sep() + st.Indentation()), t);
    hide Indent, Separator, Output;
  }

  lemma PutGrows(st: PrinterState, t: Token)
    requires Accepts(st, t)
    ensures st.out <= Put(st, t).out
  {
    hide Indent, Separator;
    match t {
      case Property(key, value) =>
        var element := if st.Inside(ARRAY) then st.Write(st.Sep() + st.Indentation()) else st;
        var member := element.Write(element.Sep() + element.Indentation()).MarkData();
        PutSimpleGrows(member, Text(key));
        PutSimpleGrows(PutSimple(member, Text(key)).Write(" : "), value);
      case _ => PutSimpleGrows(st, t);
    }
  }

  lemma {:induction false} RunGrows(st: PrinterState, tokens: seq<Token>)
    requires Run(st, tokens).Some?
    ensures st.out <= Run(st, tokens).value.out
    decreases |tokens|
  {
    if tokens != [] {
      PutGrows(st, tokens[0]);
      RunGrows(Put(st, tokens[0]), tokens[1..]);
      hide Put;
    }
  }

  lemma InfoGoesOn(st: PrinterState, key: string, value: Json)
    requires Unfinished(st, false)
    ensures var r := Run(st, [Property(key, First(value))] + Rest(value));
            r.Some? && if ReadableMember(key, value) then Unfinished(r.value, false) else Broken(r.value.out)
  {
    hide Quoted, ValueText, Indent, Separator, First, Rest, Run, ReadableMember, InObject, InArray, Parses;
    InfoWritten(st, key, value);
    var member := MemberText(HasDataNow(st), key, value, 1);
    RegroupMember(st.out, Separator(HasDataNow(st)), Indent(1), Quoted(key), ValueText(value, 1), "");
    if ReadableMember(key, value) {
      MemberAdded(st.out, HasDataNow(st), key, value, 1);
    } else {
      forall text: string ensures !Parses(st.out + member + text) {
        BrokenByMember(st.out, HasDataNow(st), key, value, 1, text);
        assert st.out + member + text == st.out + (member + text);
      }
    }
  }

  lemma MessageGoesOn(st: PrinterState, v: Json)
    requires Unfinished(st, true) && v.Obj?
    ensures var r := Run(st, [StartObject] + Rest(v));
            r.Some? && if Readable(v) then Unfinished(r.value, true) else Broken(r.value.out)
  {
    hide ValueText, Indent, Separator, Rest, Run, Readable, InObject, InArray, Parses;
    MessageWritten(st, v);
    var elem := JsonPrefixes.ElemText(HasDataNow(st), v, 2);
    RegroupOut(st.out, Separator(HasDataNow(st)), Indent(2), ValueText(v, 2), "");
    if Readable(v) {
      ElemAdded(st.out, HasDataNow(st), v, 2);
    } else {
      forall text: string ensures !Parses(st.out + elem + text) {
        BrokenByElem(st.out, HasDataNow(st), v, 2, text);
        assert st.out + elem + text == st.out + (elem + text);
      }
    }
  }

  lemma LogOpened(st: PrinterState)
    requires Unfinished(st, false)
    ensures Unfinished(Put(st, Property("logs", StartArray)), true)
  {
    hide Quoted, Indent, Separator, InObject, InArray;
    Printable("logs");
    NothingCut("logs");
    ArrayOpened(st.out, HasDataNow(st), "logs", 1);
    RegroupMember(st.out, Separator(HasDataNow(st)), Indent(1), Quoted("logs"), "[\n", "");
  }

  lemma LogClosed(st: PrinterState)
    requires Unfinished(st, true)
    ensures Unfinished(Put(st, EndArray), false)
  {
    var w := (if HasDataNow(st) then "\n" else "") + Indent(1);
    IndentIsWhite(1);
    hide Indent, InObject, InArray;
    ArrayEnded(st.out, HasDataNow(st), w);
  }

  /** In its place an operation leaves a document that can be completed, exactly if what it writes is readable. */
  lemma OpGoesOn(st: PrinterState, open: bool, op: Op)
    requires Unfinished(st, open) && Allowed(open, op)
    ensures var r := Run(st, OpTokens(open, op));
            r.Some? && if ReadableOp(op) then Unfinished(r.value, NextOpen(open, op)) else Broken(r.value.out)
  {
    hide Run, Unfinished, Broken, Readable, ReadableMember, CleanString, First, Rest, Put, Name, ReadableProps;
    RunNone(st);
    match op {
      case AddInfo(key, value) => InfoGoesOn(st, key, value);
      case AddMsg(test, message, params) =>
        ReadableMembers(test, message, params);
        MessageGoesOn(st, Obj(LogMembers(test, message, params)));
      case StartLogStream =>
        if !open {
          LogOpened(st);
          RunScope(st, open, Property("logs", StartArray));
        }
      case EndLogStream =>
        if open {
          LogClosed(st);
          RunScope(st, open, EndArray);
        }
      case SetTestResult(_, _) =>
    }
  }

  lemma RunScope(st: PrinterState, open: bool, t: Token)
    requires Unfinished(st, open) && (t == Property("logs", StartArray) || (open && t == EndArray))
    ensures Accepts(st, t) && Run(st, [t]) == Some(Put(st, t))
  {
    RunOne(st, t);
  }

  /** Out of place it leaves one that cannot: a message writes a brace where a member is due, and other information a
      comma where an element is due. */
  lemma OpBreaks(st: PrinterState, open: bool, op: Op)
    requires Unfinished(st, open) && !Allowed(open, op)
    ensures var r := Run(st, OpTokens(open, op)); r.Some? && Broken(r.value.out)
  {
    hide Run, First, Rest, Indent, Separator, Quoted, InObject, InArray, Parses;
    match op {
      case AddMsg(test, message, params) =>
        var v := Obj(LogMembers(test, message, params));
        MessageWritten(st, v);
        assert ValueText(v, 1) == "{" + ValueText(v, 1)[1..];
        forall text: string ensures !Parses(st.out + ValueText(v, 1) + text) {
          BrokenByBrace(st.out, HasDataNow(st), ValueText(v, 1)[1..] + text);
          assert st.out + ValueText(v, 1) + text == st.out + ("{" + (ValueText(v, 1)[1..] + text));
        }
      case AddInfo(key, value) =>
        InfoWritten(st, key, value);
        var out := Written(ValuePlace(st, key), value).out;
        var more := CommaInPlace(st, key, value);
        var w := if HasDataNow(st) then Indent(2) else Indent(2) + Indent(2);
        forall text: string ensures !Parses(out + text) {
          IndentIsWhite(2);
          WhiteJoined(Indent(2), Indent(2));
          BrokenByComma(st.out, HasDataNow(st), w, more + text);
          CommaOut(st.out, Separator(HasDataNow(st)), w, more, text);
        }
    }
  }

  lemma CommaOut(out: string, a: string, b: string, more: string, text: string)
    ensures out + (a + b + "," + more) + text == out + (a + (b + ("," + (more + text))))
  {
  }

  lemma CommaInPlace(st: PrinterState, key: string, value: Json) returns (more: string)
    requires Scopes(st, true)
    ensures var w := if HasDataNow(st) then Indent(2) else Indent(2) + Indent(2);
            Written(ValuePlace(st, key), value).out == st.out + (Separator(HasDataNow(st)) + w + "," + more)
  {
    hide Quoted, Indent, ValueText;
    var i, q, v := Indent(2), Quoted(key), ValueText(value, 2);
    var next := ",\n" + i;
    more := (if HasDataNow(st) then "\n" + i + next else "\n" + i) + q + " : " + next + v;
    RegroupComma(st.out, i, q, v, next);
    assert |st.nesting| == 2;
    var out := Written(ValuePlace(st, key), value).out;
    if HasDataNow(st) {
      assert out == st.out + next + next + next + q + " : " + next + v;
    } else {
      assert out == st.out + ("" + i) + ("" + i) + next + q + " : " + next + v;
    }
  }

  lemma RegroupComma(out: string, i: string, q: string, v: string, next: string)
    requires next == ",\n" + i
    ensures out + next + next + next + q + " : " + next + v
            == out + (",\n" + i + "," + ("\n" + i + next + q + " : " + next + v))
    ensures out + ("" + i) + ("" + i) + next + q + " : " + next + v
            == out + ("" + (i + i) + "," + ("\n" + i + q + " : " + next + v))
  {
    assert next == "," + ("\n" + i);
  }

  /** Every operation comes in its place and is readable. */
  ghost predicate WellFormed(ops: seq<Op>) {
    forall i :: 0 <= i < |ops| ==> Fits(OpenAfter(ops[..i]), ops[i])
  }

  predicate Fits(open: bool, op: Op) {
    Allowed(open, op) && ReadableOp(op)
  }

  lemma WellFormedStep(ops: seq<Op>)
    requires ops != []
    ensures var init := ops[..|ops| - 1];
            WellFormed(ops) <==> WellFormed(init) && Fits(OpenAfter(init), ops[|ops| - 1])
  {
    hide OpenAfter, Fits;
    var init := ops[..|ops| - 1];
    assert forall i :: 0 <= i < |init| ==> ops[..i] == init[..i] && ops[i] == init[i];
    if WellFormed(ops) {
      assert Fits(OpenAfter(ops[..|ops| - 1]), ops[|ops| - 1]);
    }
  }

  lemma WellFormedKeepsProtocol(ops: seq<Op>)
    requires WellFormed(ops)
    ensures Protocol(ops)
  {
    hide OpenAfter, Allowed, ReadableOp;
    forall i | 0 <= i < |ops| ensures Allowed(OpenAfter(ops[..i]), ops[i]) {
      assert Fits(OpenAfter(ops[..i]), ops[i]);
    }
  }

  lemma OpLeaves(st: PrinterState, open: bool, op: Op)
    requires Unfinished(st, open)
    ensures var r := Run(st, OpTokens(open, op));
            r.Some? && if Fits(open, op) then Unfinished(r.value, NextOpen(open, op)) else Broken(r.value.out)
  {
    hide Run, Unfinished, Broken, Allowed, ReadableOp, OpTokens, NextOpen;
    if Allowed(open, op) {
      OpGoesOn(st, open, op);
    } else {
      OpBreaks(st, open, op);
    }
  }

  /** While operations fit, what is written can be completed; after one that does not it cannot. */
  lemma {:induction false} RunState(ops: seq<Op>)
    ensures var r := Run(Output(BLANK, StartObject), TokensOf(ops));
            && r.Some? && Scopes(r.value, OpenAfter(ops))
            && if WellFormed(ops) then Unfinished(r.value, OpenAfter(ops)) else Broken(r.value.out)
  {
    hide Run, Scopes, Unfinished, Broken, WellFormed, Fits, OpTokens, NextOpen, Output;
    if ops == [] {
      Begun();
    } else {
      var begun := Output(BLANK, StartObject);
      var init, op := ops[..|ops| - 1], ops[|ops| - 1];
      RunState(init);
      var open := OpenAfter(init);
      var st := Run(begun, TokensOf(init)).value;
      WellFormedStep(ops);
      RunConcat(begun, TokensOf(init), OpTokens(open, op));
      OpAccepted(st, open, op);
      if WellFormed(init) {
        OpLeaves(st, open, op);
      } else {
        RunGrows(st, OpTokens(open, op));
        BrokenGrows(st.out, Run(st, OpTokens(open, op)).value.out);
      }
    }
  }

  lemma Begun()
    ensures var begun := Output(BLANK, StartObject);
            && Run(begun, TokensOf([])) == Some(begun) && WellFormed([])
            && Scopes(begun, OpenAfter([])) && Unfinished(begun, OpenAfter([]))
  {
    hide InObject;
    ObjectBegun();
    RunNone(Output(BLANK, StartObject));
    assert Output(BLANK, StartObject).out == "{\n";
  }

  lemma EndFits(ops: seq<Op>)
    ensures var closed := if OpenAfter(ops) then ops + [EndLogStream] else ops;
            !OpenAfter(closed) && (WellFormed(closed) <==> WellFormed(ops))
  {
    hide WellFormed;
    if OpenAfter(ops) {
      var closed := ops + [EndLogStream];
      assert closed[..|closed| - 1] == ops;
      WellFormedStep(closed);
    }
  }

  /** Exactly when the report is JSON, for all operations: when messages came only while the log array was open, other
      information only while it was not, and nothing given to them has a control character other than the newline
      (before a NUL) or an array with more elements that begins with a boolean. */
  lemma IsJsonIff(ops: seq<Op>, closed: seq<Op>, st: PrinterState)
    requires closed == if OpenAfter(ops) then ops + [EndLogStream] else ops
    requires Run(Output(BLANK, StartObject), TokensOf(closed)) == Some(st)
    ensures st.Inside(OBJECT) && (Parses(Put(st, EndObject).out) <==> WellFormed(ops))
  {
    hide Run, Broken, WellFormed, Fits, InObject, TokensOf, Parses, Output;
    EndFits(ops);
    RunState(closed);
    if WellFormed(closed) {
      DocumentClosed(st.out, HasDataNow(st), "\n");
      RootClosed(st);
    } else {
      PutGrows(st, EndObject);
      BrokenGrows(st.out, Put(st, EndObject).out);
    }
  }

  /** One message while the log array is closed is enough. */
  lemma MessageOutsideLog(test: TestType)
    ensures var op := Op.AddMsg(test, "", NoProp);
            var r := Run(Output(BLANK, StartObject), TokensOf([op]));
            r.Some? && r.value.Inside(OBJECT) && !Parses(Put(r.value, EndObject).out)
  {
    hide Run, Output, TokensOf, WellFormed, Parses, Put, OpenAfter;
    OutsideLog(test);
    var op := Op.AddMsg(test, "", NoProp);
    RunState([op]);
    IsJsonIff([op], [op], Run(Output(BLANK, StartObject), TokensOf([op])).value);
  }

  lemma OutsideLog(test: TestType)
    ensures var op := Op.AddMsg(test, "", NoProp); !OpenAfter([op]) && !WellFormed([op])
  {
    var op := Op.AddMsg(test, "", NoProp);
    assert [op][..0] == [];
    assert !Fits(OpenAfter([op][..0]), [op][0]);
  }

  /** And so is a tab in a message in the log array. */
  lemma TabInMessage(test: TestType)
    ensures var ops := [StartLogStream, Op.AddMsg(test, "\t", NoProp)];
            var r := Run(Output(BLANK, StartObject), TokensOf(ops + [EndLogStream]));
            Protocol(ops) && r.Some? && r.value.Inside(OBJECT) && !Parses(Put(r.value, EndObject).out)
  {
    hide Run, Output, TokensOf, WellFormed, Protocol, Parses, Put, OpenAfter;
    TabIsUnreadable(test);
    var ops := [StartLogStream, Op.AddMsg(test, "\t", NoProp)];
    RunState(ops + [EndLogStream]);
    IsJsonIff(ops, ops + [EndLogStream], Run(Output(BLANK, StartObject), TokensOf(ops + [EndLogStream])).value);
  }

  lemma TabIsUnreadable(test: TestType)
    ensures var ops := [StartLogStream, Op.AddMsg(test, "\t", NoProp)];
            OpenAfter(ops) && Protocol(ops) && !WellFormed(ops)
  {
    var ops := [StartLogStream, Op.AddMsg(test, "\t", NoProp)];
    assert ops[..0] == [] && ops[..1] == [StartLogStream];
    assert OpenAfter([StartLogStream]) && ops[..1][..0] == [];
    assert "\t"[1..] == "" && CString("\t") == "\t";
    assert !Fits(OpenAfter(ops[..1]), ops[1]);
  }

  lemma RootClosed(st: PrinterState)
    requires Scopes(st, false)
    ensures Put(st, EndObject).out == st.out + ("\n" + "}\n")
  {
    assert Indent(0) == "";
    assert st.out + ("\n" + "" + "}") + "\n" == st.out + ("\n" + "}\n");
  }

  class ErrorLogger {
    const stream: OutputStream
    var logStreamOpen: bool
    var testStatus: seq<bool>

    // The operations so far.
    ghost var ops: seq<Op>

    ghost predicate Valid()
      reads this, stream
    {
      && |testStatus| == |ALL_TESTS|
      && (forall t: TestType :: testStatus[Index(t)] == LastStatus(ops, t))
      && if stream.enabled then
           && logStreamOpen == OpenAfter(ops) && Scopes(stream.State(), logStreamOpen)
           && Run(Output(BLANK, StartObject), TokensOf(ops)) == Some(stream.State())
         else !logStreamOpen && stream.State() == BLANK
    }

    constructor (jsonOutputMode: bool)
      ensures Valid() && ops == [] && stream.enabled == jsonOutputMode && fresh(stream)
    {
      stream := new OutputStream(jsonOutputMode);
      logStreamOpen := false;
      testStatus := seq(|ALL_TESTS|, _ => true);
      ops := [];
      new;
      if stream.enabled {
        stream.PutStartObject();
      }
    }

    method StartLogStream()
      requires Valid()
      modifies this, stream
      ensures Valid() && ops == old(ops) + [Op.StartLogStream]
    {
      Before(Op.StartLogStream);
      if stream.enabled && !logStreamOpen {
        RunOne(stream.State(), Property("logs", StartArray));
        stream.PutPropertyArray("logs");
        logStreamOpen := true;
      } else {
        RunNone(stream.State());
      }
      ops := ops + [Op.StartLogStream];
    }

    method EndLogStream()
      requires Valid()
      modifies this, stream
      ensures Valid() && ops == old(ops) + [Op.EndLogStream]
    {
      Before(Op.EndLogStream);
      if stream.enabled && logStreamOpen {
        RunOne(stream.State(), EndArray);
        stream.PutEndArray();
        logStreamOpen := false;
      } else {
        RunNone(stream.State());
      }
      ops := ops + [Op.EndLogStream];
    }

    method SetTestResult(test: TestType, status: bool)
      requires Valid()
      modifies this
      ensures Valid() && ops == old(ops) + [Op.SetTestResult(test, status)]
    {
      Before(Op.SetTestResult(test, status));
      RunNone(stream.State());
      testStatus := testStatus[Index(test) := status];
      ops := ops + [Op.SetTestResult(test, status)];
    }

    method AddInfo(key: string, value: Json)
      requires Valid()
      modifies this, stream
      ensures Valid() && ops == old(ops) + [Op.AddInfo(key, value)]
    {
      hide Run, Scopes, TokensOf, LastStatus, OpTokens, PropsTokens, Output, OpenAfter;
      Before(Op.AddInfo(key, value));
      if stream.enabled {
        OneProp(logStreamOpen, key, value);
        WriteProps(stream, Prop(key, value, NoProp));
      }
      ops := ops + [Op.AddInfo(key, value)];
    }

    method AddMsg(test: TestType, message: string, params: Props)
      requires Valid()
      modifies this, stream
      ensures Valid() && ops == old(ops) + [Op.AddMsg(test, message, params)]
    {
      hide Run, Scopes, TokensOf, LastStatus, OpTokens, ElemsTokens, Output, OpenAfter, LogMembers;
      Before(Op.AddMsg(test, message, params));
      testStatus := testStatus[Index(test) := false];
      if stream.enabled {
        OneElem(logStreamOpen, test, message, params);
        WriteElems(stream, Elem(Obj(LogMembers(test, message, params)), NoElem));
      }
      ops := ops + [Op.AddMsg(test, message, params)];
    }

    /** The state of affairs once `op` is recorded. */
    lemma Before(op: Op)
      requires Valid()
      ensures var ops' := ops + [op];
              && (forall t: TestType ::
                    LastStatus(ops', t)
                    == if op.SetTestResult? && op.test == t then op.status
                       else if op.AddMsg? && op.test == t then false
                       else LastStatus(ops, t))
              && (stream.enabled ==>
                    && OpenAfter(ops') == NextOpen(logStreamOpen, op)
                    && var r := Run(stream.State(), OpTokens(logStreamOpen, op));
                       && r.Some? && Scopes(r.value, NextOpen(logStreamOpen, op))
                       && Run(Output(BLANK, StartObject), TokensOf(ops')) == r)
    {
      var ops' := ops + [op];
      assert ops'[..|ops|] == ops;
      if stream.enabled {
        OpAccepted(stream.State(), logStreamOpen, op);
        RunConcat(Output(BLANK, StartObject), TokensOf(ops), OpTokens(logStreamOpen, op));
      }
    }

    /** No error-level test has failed: none but the redundancy and empty-link tests, of which failures are warnings. */
    method OverallStatus() returns (ok: bool)
      requires Valid()
      ensures ok <==> NoErrorStands(ops)
    {
      forall t: TestType ensures LastStatus(ops, t) <==> Recovered(ops, t) {
        LastStatusIff(ops, t);
      }
      hide LastStatus, Recovered;
      for i := 0 to |ALL_TESTS|
        invariant forall j :: 0 <= j < i && IsError(ALL_TESTS[j]) ==> testStatus[j]
      {
        if IsError(ALL_TESTS[i]) && !testStatus[i] {
          assert testStatus[Index(ALL_TESTS[i])] == LastStatus(ops, ALL_TESTS[i]);
          return false;
        }
      }
      forall t: TestType | IsError(t) ensures LastStatus(ops, t) {
        assert ALL_TESTS[Index(t)] == t;
      }
      return true;
    }

    /** The destructor: the report is closed wherever the run stops. The output is JSON exactly when every operation
        came in its place and was readable, and then a parser reads it as the report of the operations with every
        string cut at its first NUL; as the report itself, when every operation came in its place, exactly when that
        is clean. Without JSON mode nothing was written. */
    method Finish() returns (text: string)
      requires Valid()
      modifies this, stream
      ensures stream.enabled ==>
                ParseDocument(text) == if WellFormed(old(ops)) then Some(Cut(Report(old(ops)))) else None
      ensures stream.enabled && WellFormed(old(ops)) ==>
                && ParseDocument(text).Some? && ParseDocument(text).value.Obj?
                && ReadsAs(false, old(ops), ParseDocument(text).value.props, NoElem)
      ensures stream.enabled && WellFormed(old(ops)) && NotCalledLogs(old(ops)) ==>
                ParseDocument(text).Some? && Tells(ParseDocument(text).value, old(ops))
      ensures stream.enabled && Protocol(old(ops)) ==>
                (ParseDocument(text) == Some(Report(old(ops))) <==> Clean(Report(old(ops))))
      ensures !stream.enabled ==> text == ""
    {
      hide Protocol, WellFormed, Clean, Readable, Cut, Report, ParseDocument, Tells, NotCalledLogs, ReadsAs;
      ghost var before := ops;
      if logStreamOpen {
        EndLogStream();
      }
      if stream.enabled {
        if Protocol(before) {
          Closed(before, ops, stream.State());
        }
        IsJsonIff(before, ops, stream.State());
        if WellFormed(before) {
          WellFormedKeepsProtocol(before);
          ReportIsRead(before);
          if NotCalledLogs(before) {
            ReportTells(before);
          }
        }
        stream.PutEndObject();
      }
      text := stream.out;
    }
  }

  lemma ClosingTokens(ops: seq<Op>)
    ensures OpenAfter(ops) ==> TokensOf(ops + [EndLogStream]) == TokensOf(ops) + [EndArray]
    ensures TokensOf(ops) + [] == TokensOf(ops)
  {
    assert (ops + [EndLogStream])[..|ops|] == ops;
  }

  /** The closing tokens complete the text of the report. */
  lemma Closed(before: seq<Op>, ops: seq<Op>, st: PrinterState)
    requires Protocol(before) && ops == (if OpenAfter(before) then before + [EndLogStream] else before)
    requires Scopes(st, false) && Run(Output(BLANK, StartObject), TokensOf(ops)) == Some(st)
    ensures st.Inside(OBJECT)
    ensures ParseDocument(Put(st, EndObject).out)
            == if Readable(Report(before)) then Some(Cut(Report(before))) else None
    ensures ParseDocument(Put(st, EndObject).out) == Some(Report(before)) <==> Clean(Report(before))
  {
    hide Clean, Readable, Cut, ParseDocument, TokensOf, Report, OpenAfter, Protocol, Run, First, Rest;
    var close: seq<Token> := if OpenAfter(before) then [EndArray] else [];
    ClosingTokens(before);
    ClosedIsReport(before);
    PrintedIsParsedIff(Report(before));
    RunThree(BLANK, StartObject, TokensOf(before) + close, [EndObject]);
    RunOne(st, EndObject);
    assert [StartObject] + TokensOf(before) + close + [EndObject]
        == [StartObject] + (TokensOf(before) + close) + [EndObject];
    assert Put(BLANK, StartObject) == Output(BLANK, StartObject);
  }
}
