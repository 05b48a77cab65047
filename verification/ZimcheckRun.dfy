/**
 The order in which zimcheck uses its logger (src/zimcheck/zimcheck.cpp): general information, then the log array with
 the messages of the tests, then the overall status. An exception can stop the run between any two operations.
 */
module ZimcheckRuns {
  import opened ErrorLoggers
  import opened JsonText
  import opened Options

  datatype Settings = Settings(version: string, checks: Json, quick: bool, fileName: string)

  /** `integrity` is the result of the integrity test, if enabled; `uuid` and `messages` are those of a full test. */
  datatype Findings = Findings(integrity: Option<bool>, uuid: string, messages: seq<Op>)

  predicate IsInfo(op: Op) {
    op.AddInfo? || op.SetTestResult?
  }

  function Before(settings: Settings, findings: Findings): (ops: seq<Op>)
    ensures forall i :: 0 <= i < |ops| ==> IsInfo(ops[i])
  {
    [AddInfo("zimcheck_version", Str(settings.version)), AddInfo("checks", settings.checks)]
    + (if settings.quick then [AddInfo("quick", Bool(true))] else [])
    + [AddInfo("file_name", Str(settings.fileName))]
    + (if findings.integrity.Some? then [SetTestResult(INTEGRITY, findings.integrity.value)] else [])
  }

  predicate IsFull(findings: Findings) {
    findings.integrity != Some(false)
  }

  ghost predicate Passed(ops: seq<Op>) {
    forall t: TestType :: IsError(t) ==> LastStatus(ops, t)
  }

  /** All operations but the last: with the full tests the log array is filled, without it is empty. */
  function UpToLog(settings: Settings, findings: Findings): seq<Op> {
    Before(settings, findings)
    + (if IsFull(findings) then [AddInfo("file_uuid", Str(findings.uuid))] else [])
    + ([StartLogStream] + (if IsFull(findings) then findings.messages else []) + [EndLogStream])
  }

  ghost function AllOps(settings: Settings, findings: Findings): seq<Op> {
    var ops := UpToLog(settings, findings);
    ops + [AddInfo("status", Bool(Passed(ops)))]
  }

  // ---------- The order is that of the protocol ----------

  lemma {:induction false} InfosFirst(infos: seq<Op>, rest: seq<Op>)
    requires (forall i :: 0 <= i < |infos| ==> IsInfo(infos[i])) && ProtocolFrom(false, rest)
    ensures ProtocolFrom(false, infos + rest)
    decreases |infos|
  {
    if infos == [] {
      assert infos + rest == rest;
    } else {
      InfosFirst(infos[1..], rest);
      assert (infos + rest)[1..] == infos[1..] + rest;
    }
  }

  lemma {:induction false} MessagesFirst(messages: seq<Op>, rest: seq<Op>)
    requires (forall i :: 0 <= i < |messages| ==> messages[i].AddMsg?) && ProtocolFrom(true, rest)
    ensures ProtocolFrom(true, messages + rest)
    decreases |messages|
  {
    if messages == [] {
      assert messages + rest == rest;
    } else {
      MessagesFirst(messages[1..], rest);
      assert (messages + rest)[1..] == messages[1..] + rest;
    }
  }

  lemma OneFirst(open: bool, op: Op, rest: seq<Op>)
    ensures ProtocolFrom(open, [op] + rest) <==> Allowed(open, op) && ProtocolFrom(NextOpen(open, op), rest)
  {
    assert ([op] + rest)[1..] == rest;
  }

  lemma ProtocolAppend(done: seq<Op>, op: Op)
    requires Protocol(done) && Allowed(OpenAfter(done), op)
    ensures Protocol(done + [op]) && OpenAfter(done + [op]) == NextOpen(OpenAfter(done), op)
  {
    hide Allowed, NextOpen;
    var longer := done + [op];
    assert longer[..|done|] == done;
    forall i | 0 <= i < |longer| ensures Allowed(OpenAfter(longer[..i]), longer[i]) {
      assert i < |done| ==> longer[..i] == done[..i] && longer[i] == done[i];
    }
  }

  lemma {:induction false} FromHere(done: seq<Op>, rest: seq<Op>)
    requires Protocol(done) && ProtocolFrom(OpenAfter(done), rest)
    ensures Protocol(done + rest)
    decreases |rest|
  {
    hide Allowed, NextOpen, Protocol, OpenAfter;
    if rest == [] {
      assert done + rest == done;
    } else {
      ProtocolAppend(done, rest[0]);
      FromHere(done + [rest[0]], rest[1..]);
      assert done + [rest[0]] + rest[1..] == done + rest;
    }
  }

  lemma ProtocolOfPrefix(ops: seq<Op>, i: nat)
    requires Protocol(ops) && i <= |ops|
    ensures Protocol(ops[..i])
  {
    hide Allowed, OpenAfter;
    forall j | 0 <= j < i ensures Allowed(OpenAfter(ops[..i][..j]), ops[..i][j]) {
      assert ops[..i][..j] == ops[..j];
    }
  }

  lemma AllOpsKeepProtocol(settings: Settings, findings: Findings)
    requires forall i :: 0 <= i < |findings.messages| ==> findings.messages[i].AddMsg?
    ensures Protocol(AllOps(settings, findings))
  {
    hide Protocol, ProtocolFrom, Before, Passed;
    var uuid: seq<Op> := if IsFull(findings) then [AddInfo("file_uuid", Str(findings.uuid))] else [];
    var messages: seq<Op> := if IsFull(findings) then findings.messages else [];
    var status := AddInfo("status", Bool(Passed(UpToLog(settings, findings))));
    var first := Before(settings, findings);
    NothingFirst();
    OneFirst(false, status, []);
    assert [status] + [] == [status];
    OneFirst(true, EndLogStream, [status]);
    MessagesFirst(messages, [EndLogStream] + [status]);
    OneFirst(false, StartLogStream, messages + ([EndLogStream] + [status]));
    InfosFirst(uuid, [StartLogStream] + (messages + ([EndLogStream] + [status])));
    InfosFirst(first, uuid + ([StartLogStream] + (messages + ([EndLogStream] + [status]))));
    var all := first + (uuid + ([StartLogStream] + (messages + ([EndLogStream] + [status]))));
    assert AllOps(settings, findings) == all;
    FromHere([], all);
    assert [] + all == all;
  }

  lemma NothingFirst()
    ensures ProtocolFrom(false, []) && Protocol([]) && !OpenAfter([])
  {
  }

  /** However early zimcheck stops, every operation came in its place; so its report is JSON exactly when the text of
      every operation is readable. */
  lemma EveryStopIsInOrder(settings: Settings, findings: Findings, i: nat)
    requires forall k :: 0 <= k < |findings.messages| ==> findings.messages[k].AddMsg?
    requires i <= |AllOps(settings, findings)|
    ensures var ops := AllOps(settings, findings)[..i];
            Protocol(ops) && (WellFormed(ops) <==> forall j :: 0 <= j < i ==> ReadableOp(ops[j]))
  {
    hide AllOps, Allowed, OpenAfter, ReadableOp;
    AllOpsKeepProtocol(settings, findings);
    ProtocolOfPrefix(AllOps(settings, findings), i);
    var ops := AllOps(settings, findings)[..i];
    if WellFormed(ops) {
      forall j | 0 <= j < i ensures ReadableOp(ops[j]) {
        assert Fits(OpenAfter(ops[..j]), ops[j]);
      }
    }
  }

  // ---------- What the report of a whole run tells ----------

  lemma {:induction false} KindsConcat(a: seq<Op>, b: seq<Op>)
    ensures AddInfos(a + b) == AddInfos(a) + AddInfos(b) && AddMsgs(a + b) == AddMsgs(a) + AddMsgs(b)
    decreases |a|
  {
    if a == [] {
      assert a + b == b;
    } else {
      assert (a + b)[1..] == a[1..] + b;
      KindsConcat(a[1..], b);
    }
  }

  lemma OneOp(op: Op)
    ensures AddInfos([op]) == (if op.AddInfo? then [op] else [])
    ensures AddMsgs([op]) == (if op.AddMsg? then [op] else [])
    ensures AddInfos([]) == [] && AddMsgs([]) == []
  {
  }

  lemma {:induction false} OnlyMessages(messages: seq<Op>)
    requires forall i :: 0 <= i < |messages| ==> messages[i].AddMsg?
    ensures AddInfos(messages) == [] && AddMsgs(messages) == messages
  {
    if messages != [] {
      OnlyMessages(messages[1..]);
    }
  }

  /** The information of a run in order, with the status last: true exactly when every failure of an error-level test
      was followed by a success. The messages are those of the tests, when these were made. */
  lemma RunTells(settings: Settings, findings: Findings)
    requires forall i :: 0 <= i < |findings.messages| ==> findings.messages[i].AddMsg?
    ensures var ops := AllOps(settings, findings);
            && ops != []
            && AddInfos(ops)
               == [AddInfo("zimcheck_version", Str(settings.version)), AddInfo("checks", settings.checks)]
                  + (if settings.quick then [AddInfo("quick", Bool(true))] else [])
                  + [AddInfo("file_name", Str(settings.fileName))]
                  + (if findings.integrity == Some(false) then [] else [AddInfo("file_uuid", Str(findings.uuid))])
                  + [AddInfo("status", Bool(NoErrorStands(ops[..|ops| - 1])))]
            && AddMsgs(ops) == if findings.integrity == Some(false) then [] else findings.messages
  {
    hide AddInfos, AddMsgs, Recovered, LastStatus;
    var upToLog := UpToLog(settings, findings);
    var status := AddInfo("status", Bool(Passed(upToLog)));
    assert AllOps(settings, findings)[..|upToLog|] == upToLog;
    forall t: TestType ensures LastStatus(upToLog, t) <==> Recovered(upToLog, t) {
      LastStatusIff(upToLog, t);
    }
    KindsConcat(upToLog, [status]);
    OneOp(status);
    KindsUpToLog(settings, findings);
  }

  lemma KindsUpToLog(settings: Settings, findings: Findings)
    requires forall i :: 0 <= i < |findings.messages| ==> findings.messages[i].AddMsg?
    ensures var ops := UpToLog(settings, findings);
            && AddInfos(ops)
               == [AddInfo("zimcheck_version", Str(settings.version)), AddInfo("checks", settings.checks)]
                  + (if settings.quick then [AddInfo("quick", Bool(true))] else [])
                  + [AddInfo("file_name", Str(settings.fileName))]
                  + (if findings.integrity == Some(false) then [] else [AddInfo("file_uuid", Str(findings.uuid))])
            && AddMsgs(ops) == if findings.integrity == Some(false) then [] else findings.messages
  {
    hide AddInfos, AddMsgs, Before;
    var before := Before(settings, findings);
    var uuid: seq<Op> := if IsFull(findings) then [AddInfo("file_uuid", Str(findings.uuid))] else [];
    var messages: seq<Op> := if IsFull(findings) then findings.messages else [];
    KindsBefore(settings, findings);
    OneOp(AddInfo("file_uuid", Str(findings.uuid)));
    KindsOfLog(messages);
    KindsConcat(before, uuid);
    KindsConcat(before + uuid, [StartLogStream] + messages + [EndLogStream]);
  }

  lemma KindsOfLog(messages: seq<Op>)
    requires forall i :: 0 <= i < |messages| ==> messages[i].AddMsg?
    ensures AddInfos([StartLogStream] + messages + [EndLogStream]) == []
    ensures AddMsgs([StartLogStream] + messages + [EndLogStream]) == messages
  {
    hide AddInfos, AddMsgs;
    OnlyMessages(messages);
    OneOp(StartLogStream);
    OneOp(EndLogStream);
    KindsConcat([StartLogStream], messages);
    KindsConcat([StartLogStream] + messages, [EndLogStream]);
  }

  lemma KindsBefore(settings: Settings, findings: Findings)
    ensures var ops := Before(settings, findings);
            && AddInfos(ops)
               == [AddInfo("zimcheck_version", Str(settings.version)), AddInfo("checks", settings.checks)]
                  + (if settings.quick then [AddInfo("quick", Bool(true))] else [])
                  + [AddInfo("file_name", Str(settings.fileName))]
            && AddMsgs(ops) == []
  {
    hide AddInfos, AddMsgs;
    var version, checks := AddInfo("zimcheck_version", Str(settings.version)), AddInfo("checks", settings.checks);
    var quick: seq<Op> := if settings.quick then [AddInfo("quick", Bool(true))] else [];
    var name := AddInfo("file_name", Str(settings.fileName));
    var result: seq<Op> :=
      if findings.integrity.Some? then [SetTestResult(INTEGRITY, findings.integrity.value)] else [];
    OneOp(version);
    OneOp(checks);
    OneOp(AddInfo("quick", Bool(true)));
    OneOp(name);
    if findings.integrity.Some? {
      OneOp(SetTestResult(INTEGRITY, findings.integrity.value));
    }
    assert [version] + [checks] == [version, checks];
    KindsConcat([version], [checks]);
    KindsConcat([version, checks], quick);
    KindsConcat([version, checks] + quick, [name]);
    KindsConcat([version, checks] + quick + [name], result);
  }
}
