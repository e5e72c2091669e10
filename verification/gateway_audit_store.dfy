/**
 The audit store: appending under I/O faults, reopening, and connections that share one log.
 */
module GatewayAuditStore {
  import opened Results
  import opened JsonValue
  import opened JsonCanonical
  import opened GatewayAudit

  // ---------------------------------------------------------------- one append

  /** What one append does to the file: everything; nothing; part of the text; all of it but the
      newline; or all of it without a successful sync. Only the first counts as success. */
  datatype Io = Done | Nothing | Torn | NoNewline | Unsynced

  /** The file and the store's view of it. `open` says the last line lacks its newline. */
  datatype Log = Log(file: seq<FileLine>, open: bool, nextSeq: nat, latestHash: string)

  /** Text written after an unterminated line is glued onto it, and the result is not JSON. */
  function Glue(file: seq<FileLine>, open: bool, f: FileLine): seq<FileLine> {
    if open && file != [] then file[..|file| - 1] + [Unparsable] else file + [f]
  }

  function NextLine(h: string -> Digest, s: Log, record: Json): Line {
    Line(AUDIT_SCHEMA, s.nextSeq, s.latestHash, ChainHash(h, s.latestHash, record), record)
  }

  function AppendStep(h: string -> Digest, s: Log, record: Json, io: Io): Log {
    var l := NextLine(h, s, record);
    match io
    case Done => Log(Glue(s.file, s.open, Parsed(l)), false, s.nextSeq + 1, l.chainHash)
    case Nothing => s
    case Torn => s.(file := Glue(s.file, s.open, Unparsable), open := true)
    case NoNewline => s.(file := Glue(s.file, s.open, Parsed(l)), open := true)
    case Unsynced => s.(file := Glue(s.file, s.open, Parsed(l)), open := false)
  }

  /** What each outcome of an append leaves: the last line is unterminated exactly after a torn write or a lost
      newline, nothing is written if nothing was, and only success moves the store. */
  lemma OutcomesLeave(h: string -> Digest, s: Log, record: Json, io: Io)
    ensures var t := AppendStep(h, s, record, io);
      && (io.Nothing? ==> t == s)
      && (!io.Nothing? ==> (t.open <==> io.Torn? || io.NoNewline?))
      && (!io.Done? ==> t.nextSeq == s.nextSeq && t.latestHash == s.latestHash)
      && (io.Done? ==> t.nextSeq == s.nextSeq + 1 && t.latestHash == ChainHash(h, s.latestHash, record))
      && (!s.open && io.Torn? ==> t.file == s.file + [Unparsable])
      && (!s.open && !io.Nothing? && !io.Torn? ==>
            t.file == s.file + [Parsed(Line("confidential-agent/gateway-audit/v1", s.nextSeq, s.latestHash,
                                            ChainHash(h, s.latestHash, record), record))])
  {
  }

  /** The store agrees with a file that verifies. */
  ghost predicate Matches(h: string -> Digest, s: Log) {
    FileValid(h, s.file) && s.nextSeq == |Lines(s.file)| && s.latestHash == Tip(Lines(s.file))
  }

  ghost predicate Consistent(h: string -> Digest, s: Log) {
    Matches(h, s) && !s.open
  }

  /** The file verifies but holds one record the store does not know of. */
  ghost predicate Ahead(h: string -> Digest, s: Log) {
    FileValid(h, s.file) && |Lines(s.file)| == s.nextSeq + 1
  }

  lemma WriteToConsistent(h: string -> Digest, s: Log, record: Json)
    requires Consistent(h, s)
    ensures var file := s.file + [Parsed(NextLine(h, s, record))];
      FileValid(h, file) && Lines(file) == Lines(s.file) + [NextLine(h, s, record)]
  {
    FileSnoc(s.file, Parsed(NextLine(h, s, record)));
    ValidStep(h, s.file, Parsed(NextLine(h, s, record)));
  }

  /** A file that does not verify never verifies again, whatever is written to it. */
  lemma GlueKeepsInvalid(h: string -> Digest, file: seq<FileLine>, open: bool, f: FileLine)
    requires !FileValid(h, file)
    ensures !FileValid(h, Glue(file, open, f))
  {
    if open && file != [] {
      var n := |file| - 1;
      assert (file[..n] + [Unparsable])[n] == Unparsable;
    } else {
      ValidStep(h, file, f);
    }
  }

  lemma AppendFromConsistent(h: string -> Digest, s: Log, record: Json, io: Io)
    requires Consistent(h, s)
    ensures var t := AppendStep(h, s, record, io);
      && (io.Done? || io.Nothing? ==> Consistent(h, t))
      && (io.NoNewline? || io.Unsynced? ==> Ahead(h, t))
      && (io.Torn? ==> !FileValid(h, t.file))
  {
    WriteToConsistent(h, s, record);
    ValidStep(h, s.file, Unparsable);
  }

  lemma AppendFromAhead(h: string -> Digest, s: Log, record: Json, io: Io)
    requires Ahead(h, s)
    ensures var t := AppendStep(h, s, record, io);
      if io.Nothing? then t == s else !FileValid(h, t.file)
  {
    var n := |s.file| - 1;
    if s.open {
      assert (s.file[..n] + [Unparsable])[n] == Unparsable;
    } else {
      ValidStep(h, s.file, Parsed(NextLine(h, s, record)));
      ValidStep(h, s.file, Unparsable);
    }
  }

  /** A store that knows its file can extend it exactly when the file's last line is terminated:
      reopening after an append that lost its newline verifies, but the next append breaks the chain. */
  lemma UnterminatedFileBreaks(h: string -> Digest, s: Log, record: Json)
    requires Matches(h, s) && s.file != []
    ensures FileValid(h, AppendStep(h, s, record, Done).file) <==> !s.open
  {
    if s.open {
      var n := |s.file| - 1;
      assert (s.file[..n] + [Unparsable])[n] == Unparsable;
    } else {
      WriteToConsistent(h, s, record);
    }
  }

  /** After an append that lost its newline, the next append is reported as successful although the
      file holds neither record. */
  lemma LostNewlineLosesBoth(h: string -> Digest, s: Log, first: Json, second: Json)
    requires !s.open
    ensures var t := AppendStep(h, AppendStep(h, s, first, NoNewline), second, Done);
      Lines(t.file) == Lines(s.file)
  {
    var file := s.file + [Parsed(NextLine(h, s, first))];
    assert file[..|file| - 1] == s.file;
    FileSnoc(s.file, Unparsable);
  }

  // ---------------------------------------------------------------- histories of appends

  datatype Append = Append(record: Json, io: Io)

  function AfterAppends(h: string -> Digest, s: Log, events: seq<Append>): Log {
    if events == [] then s
    else
      var n := |events| - 1;
      AppendStep(h, AfterAppends(h, s, events[..n]), events[n].record, events[n].io)
  }

  predicate Clean(io: Io) {
    io.Done? || io.Nothing?
  }

  /** At most one append wrote its record without succeeding, none tore it, and nothing was written
      after that one. */
  ghost predicate KeepsValid(events: seq<Append>) {
    forall i :: 0 <= i < |events| ==>
      && !events[i].io.Torn?
      && (!Clean(events[i].io) ==> forall j :: i < j < |events| ==> events[j].io.Nothing?)
  }

  ghost predicate AllClean(events: seq<Append>) {
    forall i :: 0 <= i < |events| ==> Clean(events[i].io)
  }

  lemma KeepsValidSnoc(events: seq<Append>)
    requires events != []
    ensures var n := |events| - 1;
      KeepsValid(events) <==>
        && KeepsValid(events[..n]) && !events[n].io.Torn?
        && (AllClean(events[..n]) || events[n].io.Nothing?)
  {
    var n := |events| - 1;
    var before := events[..n];
    if KeepsValid(events) && !AllClean(before) {
      var i :| 0 <= i < n && !Clean(before[i].io);
      assert !Clean(events[i].io);
    }
    if KeepsValid(before) && !events[n].io.Torn? && (AllClean(before) || events[n].io.Nothing?) {
      forall i | 0 <= i < |events|
        ensures !events[i].io.Torn?
        ensures !Clean(events[i].io) ==> forall j :: i < j < |events| ==> events[j].io.Nothing?
      {
        if i < n {
          assert before[i] == events[i];
          if !Clean(events[i].io) {
            forall j | i < j < |events|
              ensures events[j].io.Nothing?
            {
              assert j < n ==> before[j] == events[j];
            }
          }
        }
      }
    }
    if KeepsValid(events) {
      forall i | 0 <= i < n
        ensures !before[i].io.Torn?
        ensures !Clean(before[i].io) ==> forall j :: i < j < n ==> before[j].io.Nothing?
      {
        assert before[i] == events[i];
      }
    }
  }

  /**
   After any history of appends to a consistent log the file verifies exactly when at most one
   append left its record behind without succeeding and nothing was written after it; and when every
   append either succeeded or wrote nothing, the store's sequence number and hash are the file's.
   */
  lemma {:induction false} HistoryVerifiesExactly(h: string -> Digest, s: Log, events: seq<Append>)
    requires Consistent(h, s)
    ensures FileValid(h, AfterAppends(h, s, events).file) <==> KeepsValid(events)
    ensures AllClean(events) ==> Consistent(h, AfterAppends(h, s, events))
    ensures KeepsValid(events) && !AllClean(events) ==> Ahead(h, AfterAppends(h, s, events))
  {
    if events != [] {
      var n := |events| - 1;
      var t := AfterAppends(h, s, events[..n]);
      var record, io := events[n].record, events[n].io;
      HistoryVerifiesExactly(h, s, events[..n]);
      KeepsValidSnoc(events);
      assert AllClean(events) <==> AllClean(events[..n]) && Clean(io);
      if AllClean(events[..n]) {
        AppendFromConsistent(h, t, record, io);
      } else if KeepsValid(events[..n]) {
        AppendFromAhead(h, t, record, io);
      } else if !io.Nothing? {
        GlueKeepsInvalid(h, t.file, t.open, Parsed(NextLine(h, t, record)));
        GlueKeepsInvalid(h, t.file, t.open, Unparsable);
      }
    }
  }

  /** The records of the appends that succeeded, in order. */
  function Successes(events: seq<Append>): seq<Json> {
    if events == [] then []
    else
      var n := |events| - 1;
      Successes(events[..n]) + if events[n].io.Done? then [events[n].record] else []
  }

  function RecordsOf(lines: seq<Line>): seq<Json> {
    seq(|lines|, i requires 0 <= i < |lines| => lines[i].record)
  }

  lemma RecordsOfSnoc(lines: seq<Line>, l: Line)
    ensures RecordsOf(lines + [l]) == RecordsOf(lines) + [l.record]
  {
  }

  lemma AppendAssociates(a: seq<Json>, b: seq<Json>, c: seq<Json>)
    ensures (a + b) + c == a + (b + c)
  {
  }

  lemma CleanStepKeepsRecords(h: string -> Digest, t: Log, e: Append)
    requires Consistent(h, t) && Clean(e.io)
    ensures RecordsOf(Lines(AppendStep(h, t, e.record, e.io).file))
         == RecordsOf(Lines(t.file)) + if e.io.Done? then [e.record] else []
  {
    if e.io.Done? {
      WriteToConsistent(h, t, e.record);
      RecordsOfSnoc(Lines(t.file), NextLine(h, t, e.record));
    }
  }

  /** Nothing lost, nothing invented: the file holds the earlier records followed by exactly the
      records of the successful appends, in order. */
  lemma {:induction false} HistoryKeepsRecords(h: string -> Digest, s: Log, events: seq<Append>)
    requires Consistent(h, s) && AllClean(events)
    ensures RecordsOf(Lines(AfterAppends(h, s, events).file)) == RecordsOf(Lines(s.file)) + Successes(events)
  {
    if events != [] {
      var n := |events| - 1;
      var t := AfterAppends(h, s, events[..n]);
      HistoryKeepsRecords(h, s, events[..n]);
      HistoryVerifiesExactly(h, s, events[..n]);
      CleanStepKeepsRecords(h, t, events[n]);
      AppendAssociates(RecordsOf(Lines(s.file)), Successes(events[..n]),
        if events[n].io.Done? then [events[n].record] else []);
    }
  }

  // ---------------------------------------------------------------- successes that stay

  /** The lines no later write can touch: all but an unterminated last one. */
  function Settled(s: Log): seq<Line> {
    if s.open && s.file != [] then Lines(s.file[..|s.file| - 1]) else Lines(s.file)
  }

  lemma SettledIsPrefix(s: Log)
    ensures Settled(s) <= Lines(s.file)
  {
    if s.open && s.file != [] {
      var n := |s.file| - 1;
      assert s.file == s.file[..n] + [s.file[n]];
      FileSnoc(s.file[..n], s.file[n]);
    }
  }

  lemma GlueSettles(file: seq<FileLine>, open: bool, f: FileLine)
    ensures open && file != [] ==> Lines(Glue(file, open, f)) == Lines(file[..|file| - 1])
    ensures !(open && file != []) ==> Lines(Glue(file, open, f)) == Lines(file) + (if f.Parsed? then [f.line] else [])
    ensures Glue(file, open, f) != []
    ensures Glue(file, open, f)[..|Glue(file, open, f)| - 1] == if open && file != [] then file[..|file| - 1] else file
  {
    if open && file != [] {
      FileSnoc(file[..|file| - 1], Unparsable);
    } else {
      FileSnoc(file, f);
    }
  }

  /** An append adds at most its own record to the settled lines, a success exactly that record unless
      the last line was unterminated: then it adds none. */
  lemma AppendSettles(h: string -> Digest, s: Log, record: Json, io: Io)
    requires s.open ==> s.file != []
    ensures var t := AppendStep(h, s, record, io);
      && (t.open ==> t.file != []) && Settled(s) <= Settled(t)
      && (io.Done? && !s.open ==> Settled(s) == Lines(s.file)
                                  && Settled(t) == Lines(t.file) == Settled(s) + [NextLine(h, s, record)])
      && (io.Done? && s.open ==> Lines(t.file) == Settled(s) && |Settled(s)| <= |Lines(s.file)|)
  {
    SettledIsPrefix(s);
    GlueSettles(s.file, s.open, Parsed(NextLine(h, s, record)));
    GlueSettles(s.file, s.open, Unparsable);
  }

  ghost predicate RecordAt(lines: seq<Line>, at: nat, record: Json) {
    at < |lines| && lines[at].record == record
  }

  /** Every append of the history that succeeded has its record where it was written. */
  ghost predicate SuccessesHeld(h: string -> Digest, s: Log, events: seq<Append>, lines: seq<Line>) {
    forall i :: 0 <= i < |events| && events[i].io.Done? ==>
      RecordAt(lines, |Lines(AfterAppends(h, s, events[..i]).file)|, events[i].record)
  }

  ghost predicate AlwaysHeld(h: string -> Digest, s: Log, events: seq<Append>) {
    events == [] ||
    (AlwaysHeld(h, s, events[..|events| - 1])
     && SuccessesHeld(h, s, events, Lines(AfterAppends(h, s, events).file)))
  }

  /** No append succeeded while the file's last line was unterminated. */
  ghost predicate NoGluedSuccess(h: string -> Digest, s: Log, events: seq<Append>) {
    events == [] ||
    (var n := |events| - 1;
     NoGluedSuccess(h, s, events[..n]) && !(events[n].io.Done? && AfterAppends(h, s, events[..n]).open))
  }

  lemma HeldInLonger(h: string -> Digest, s: Log, events: seq<Append>, lines: seq<Line>, more: seq<Line>)
    requires events != [] && lines <= more && SuccessesHeld(h, s, events[..|events| - 1], lines)
    requires var n := |events| - 1; events[n].io.Done? ==>
      RecordAt(more, |Lines(AfterAppends(h, s, events[..n]).file)|, events[n].record)
    ensures SuccessesHeld(h, s, events, more)
  {
    var n := |events| - 1;
    forall i | 0 <= i < |events| && events[i].io.Done?
      ensures RecordAt(more, |Lines(AfterAppends(h, s, events[..i]).file)|, events[i].record)
    {
      if i < n {
        assert events[..n][i] == events[i] && events[..n][..i] == events[..i];
        assert RecordAt(lines, |Lines(AfterAppends(h, s, events[..i]).file)|, events[i].record);
      }
    }
  }

  lemma {:induction false} SuccessesSettle(h: string -> Digest, s: Log, events: seq<Append>)
    requires !s.open && NoGluedSuccess(h, s, events)
    ensures SuccessesHeld(h, s, events, Settled(AfterAppends(h, s, events)))
    ensures AfterAppends(h, s, events).open ==> AfterAppends(h, s, events).file != []
  {
    if events != [] {
      var n := |events| - 1;
      var t := AfterAppends(h, s, events[..n]);
      SuccessesSettle(h, s, events[..n]);
      AppendSettles(h, t, events[n].record, events[n].io);
      HeldInLonger(h, s, events, Settled(t), Settled(AfterAppends(h, s, events)));
    }
  }

  lemma {:induction false} OpenMeansFile(h: string -> Digest, s: Log, events: seq<Append>)
    requires !s.open
    ensures AfterAppends(h, s, events).open ==> AfterAppends(h, s, events).file != []
  {
    if events != [] {
      var n := |events| - 1;
      OpenMeansFile(h, s, events[..n]);
      AppendSettles(h, AfterAppends(h, s, events[..n]), events[n].record, events[n].io);
    }
  }

  lemma HeldInFile(h: string -> Digest, s: Log, events: seq<Append>, lines: seq<Line>, more: seq<Line>)
    requires lines <= more && SuccessesHeld(h, s, events, lines)
    ensures SuccessesHeld(h, s, events, more)
  {
    forall i | 0 <= i < |events| && events[i].io.Done?
      ensures RecordAt(more, |Lines(AfterAppends(h, s, events[..i]).file)|, events[i].record)
    {
      assert RecordAt(lines, |Lines(AfterAppends(h, s, events[..i]).file)|, events[i].record);
    }
  }

  /** A success on top of an unterminated line is not in the file. */
  lemma GluedSuccessIsLost(h: string -> Digest, s: Log, events: seq<Append>)
    requires !s.open && events != [] && events[|events| - 1].io.Done?
    requires AfterAppends(h, s, events[..|events| - 1]).open
    ensures !SuccessesHeld(h, s, events, Lines(AfterAppends(h, s, events).file))
  {
    var n := |events| - 1;
    var t := AfterAppends(h, s, events[..n]);
    OpenMeansFile(h, s, events[..n]);
    AppendSettles(h, t, events[n].record, events[n].io);
    assert !RecordAt(Lines(AfterAppends(h, s, events).file), |Lines(t.file)|, events[n].record);
  }

  /**
   From a terminated file on, in every state of a history of appends every append that was reported as
   successful has its record in the file, exactly when none succeeded while the last line was
   unterminated. Faults before, between and after do no harm.
   */
  lemma {:induction false} SuccessesHeldExactly(h: string -> Digest, s: Log, events: seq<Append>)
    requires !s.open
    ensures AlwaysHeld(h, s, events) <==> NoGluedSuccess(h, s, events)
  {
    if events != [] {
      var n := |events| - 1;
      SuccessesHeldExactly(h, s, events[..n]);
      var t := AfterAppends(h, s, events);
      if NoGluedSuccess(h, s, events) {
        SuccessesSettle(h, s, events);
        SettledIsPrefix(t);
        HeldInFile(h, s, events, Settled(t), Lines(t.file));
      } else if NoGluedSuccess(h, s, events[..n]) {
        GluedSuccessIsLost(h, s, events);
      }
    }
  }

  // ---------------------------------------------------------------- per-method counts

  function Field(v: Json, key: string): Option<Json> {
    if !v.Obj? then None else FieldOf(v.entries, key)
  }

  function FieldOf(entries: seq<Entry>, key: string): Option<Json> {
    if entries == [] then None
    else if entries[0].key == key then Some(entries[0].value)
    else FieldOf(entries[1..], key)
  }

  /** `record.get("method").and_then(Value::as_str)`. */
  function MethodOf(record: Json): Option<string> {
    match Field(record, "method")
    case Some(Str(m)) => Some(m)
    case _ => None
  }

  type MethodCounts = map<string, nat>

  function CountOne(counts: MethodCounts, method_: string): MethodCounts {
    counts[method_ := (if method_ in counts then counts[method_] else 0) + 1]
  }

  function CountLine(counts: MethodCounts, l: Line): MethodCounts {
    match MethodOf(l.record)
    case Some(m) => CountOne(counts, m)
    case None => counts
  }

  function Summary(lines: seq<Line>): MethodCounts {
    if lines == [] then map[]
    else
      var n := |lines| - 1;
      CountLine(Summary(lines[..n]), lines[n])
  }

  function Methods(lines: seq<Line>): seq<string> {
    if lines == [] then []
    else
      var n := |lines| - 1;
      Methods(lines[..n]) + match MethodOf(lines[n].record) case Some(m) => [m] case None => []
  }

  /** The summary counts every method exactly as often as records name it. */
  lemma {:induction false} SummaryCounts(lines: seq<Line>, m: string)
    ensures multiset(Methods(lines))[m] == if m in Summary(lines) then Summary(lines)[m] else 0
    ensures m in Summary(lines) <==> m in Methods(lines)
  {
    if lines != [] {
      SummaryCounts(lines[..|lines| - 1], m);
    }
  }

  // ---------------------------------------------------------------- the store object

  datatype AuditInput = AuditInput(
    timestamp: nat, callerServiceId: string, callerJti: string, method_: string,
    toolName: Option<string>, paramsHash: Option<string>, resultHash: Option<string>, httpStatus: nat)

  function OptionalText(t: Option<string>): Json {
    match t case Some(s) => Str(s) case None => Null
  }

  function CallRecord(input: AuditInput): Json {
    Obj([Entry("caller_jti", Str(input.callerJti)),
         Entry("caller_service_id", Str(input.callerServiceId)),
         Entry("http_status", Num(Integer(input.httpStatus))),
         Entry("method", Str(input.method_)),
         Entry("params_hash", OptionalText(input.paramsHash)),
         Entry("result_hash", OptionalText(input.resultHash)),
         Entry("timestamp", Num(Integer(input.timestamp))),
         Entry("tool_name", OptionalText(input.toolName)),
         Entry("type", Str("mcp_call"))])
  }

  function GenesisRecord(serviceId: string, now: nat): Json {
    Obj([Entry("service_id", Str(serviceId)), Entry("timestamp", Num(Integer(now))), Entry("type", Str("genesis"))])
  }

  lemma CallRecordMethod(input: AuditInput)
    ensures MethodOf(CallRecord(input)) == Some(input.method_)
  {
    var es := CallRecord(input).entries;
    assert FieldOf(es, "method") == FieldOf(es[1..], "method");
    assert FieldOf(es[1..], "method") == FieldOf(es[1..][1..], "method");
    assert FieldOf(es[1..][1..], "method") == FieldOf(es[1..][1..][1..], "method");
    assert es[1..][1..][1..][0] == Entry("method", Str(input.method_));
  }

  /** Every field of a call is read back from its record. */
  lemma CallRecordReads(input: AuditInput)
    ensures var es := CallRecord(input).entries;
      && FieldOf(es, "type") == Some(Str("mcp_call"))
      && FieldOf(es, "timestamp") == Some(Num(Integer(input.timestamp)))
      && FieldOf(es, "caller_service_id") == Some(Str(input.callerServiceId))
      && FieldOf(es, "caller_jti") == Some(Str(input.callerJti))
      && FieldOf(es, "method") == Some(Str(input.method_))
      && FieldOf(es, "tool_name") == Some(OptionalText(input.toolName))
      && FieldOf(es, "params_hash") == Some(OptionalText(input.paramsHash))
      && FieldOf(es, "result_hash") == Some(OptionalText(input.resultHash))
      && FieldOf(es, "http_status") == Some(Num(Integer(input.httpStatus)))
  {
    CallersRead(input);
    MethodsRead(input);
    RestRead(input);
  }

  lemma CallersRead(input: AuditInput)
    ensures var es := CallRecord(input).entries;
      && FieldOf(es, "caller_jti") == Some(Str(input.callerJti))
      && FieldOf(es, "caller_service_id") == Some(Str(input.callerServiceId))
      && FieldOf(es, "http_status") == Some(Num(Integer(input.httpStatus)))
  {
    var es := CallRecord(input).entries;
    FieldAt(es, 0);
    FieldAt(es, 1);
    FieldAt(es, 2);
  }

  lemma MethodsRead(input: AuditInput)
    ensures var es := CallRecord(input).entries;
      && FieldOf(es, "method") == Some(Str(input.method_))
      && FieldOf(es, "params_hash") == Some(OptionalText(input.paramsHash))
      && FieldOf(es, "result_hash") == Some(OptionalText(input.resultHash))
  {
    var es := CallRecord(input).entries;
    FieldAt(es, 3);
    FieldAt(es, 4);
    FieldAt(es, 5);
  }

  lemma RestRead(input: AuditInput)
    ensures var es := CallRecord(input).entries;
      && FieldOf(es, "timestamp") == Some(Num(Integer(input.timestamp)))
      && FieldOf(es, "tool_name") == Some(OptionalText(input.toolName))
      && FieldOf(es, "type") == Some(Str("mcp_call"))
  {
    var es := CallRecord(input).entries;
    FieldAt(es, 6);
    FieldAt(es, 7);
    FieldAt(es, 8);
  }

  lemma {:induction false} FieldAt(es: seq<Entry>, k: nat)
    requires k < |es| && forall i :: 0 <= i < k ==> es[i].key != es[k].key
    ensures FieldOf(es, es[k].key) == Some(es[k].value)
    decreases k
  {
    if k > 0 {
      FieldAt(es[1..], k - 1);
    }
  }

  /** So is the first record of a chain. */
  lemma GenesisReads(serviceId: string, now: nat)
    ensures var es := GenesisRecord(serviceId, now).entries;
      && FieldOf(es, "type") == Some(Str("genesis")) && FieldOf(es, "service_id") == Some(Str(serviceId))
      && FieldOf(es, "timestamp") == Some(Num(Integer(now)))
  {
    var es := GenesisRecord(serviceId, now).entries;
    FieldAt(es, 0);
    FieldAt(es, 1);
    FieldAt(es, 2);
  }

  /** So two calls with the same record are the same call. */
  lemma CallRecordInjective(a: AuditInput, b: AuditInput)
    ensures CallRecord(a) == CallRecord(b) <==> a == b
  {
    CallRecordReads(a);
    CallRecordReads(b);
  }

  class AuditFile {
    var lines: seq<FileLine>
    var open: bool

    constructor ()
      ensures lines == [] && !open
    {
      lines, open := [], false;
    }
  }

  /** What a successful append of a call adds to a file that verifies. */
  lemma CallIsCounted(h: string -> Digest, s: Log, input: AuditInput)
    requires Consistent(h, s)
    ensures var t := AppendStep(h, s, CallRecord(input), Done);
      && Consistent(h, t)
      && RecordsOf(Lines(t.file)) == RecordsOf(Lines(s.file)) + [CallRecord(input)]
      && Summary(Lines(t.file)) == CountOne(Summary(Lines(s.file)), input.method_)
  {
    AppendFromConsistent(h, s, CallRecord(input), Done);
    CleanStepKeepsRecords(h, s, Append(CallRecord(input), Done));
    WriteToConsistent(h, s, CallRecord(input));
    CallRecordMethod(input);
    SummarySnoc(Lines(s.file), NextLine(h, s, CallRecord(input)));
  }

  lemma SummarySnoc(lines: seq<Line>, l: Line)
    ensures Summary(lines + [l]) == CountLine(Summary(lines), l)
  {
    assert (lines + [l])[..|lines|] == lines;
  }

  class AuditStore {
    const file: AuditFile
    var nextSeq: nat
    var latestHash: string
    var methodsSummary: MethodCounts

    ghost function AsLog(): Log
      reads this, file
    {
      Log(file.lines, file.open, nextSeq, latestHash)
    }

    /** The store knows exactly what the file holds. */
    ghost predicate Knows(h: string -> Digest)
      reads this, file
    {
      Matches(h, AsLog()) && methodsSummary == Summary(Lines(file.lines))
    }

    constructor (file: AuditFile, nextSeq: nat, latestHash: string, methodsSummary: MethodCounts)
      ensures this.file == file && this.nextSeq == nextSeq && this.latestHash == latestHash
      ensures this.methodsSummary == methodsSummary
    {
      this.file, this.nextSeq, this.latestHash, this.methodsSummary := file, nextSeq, latestHash, methodsSummary;
    }

    /** `append_record`: the store's fields move only after the sync. */
    method AppendRecord(h: string -> Digest, record: Json) returns (ok: bool, io: Io)
      modifies this`nextSeq, this`latestHash, file
      ensures AsLog() == AppendStep(h, old(AsLog()), record, io)
      ensures ok <==> io.Done?
    {
      var prevHash := latestHash;
      var chainHash := ChainHash(h, prevHash, record);
      var line := Line(AUDIT_SCHEMA, nextSeq, prevHash, chainHash, record);
      io := *;
      match io {
        case Nothing => return false, io;
        case Torn =>
          file.lines, file.open := Glue(file.lines, file.open, Unparsable), true;
          return false, io;
        case NoNewline =>
          file.lines, file.open := Glue(file.lines, file.open, Parsed(line)), true;
          return false, io;
        case Unsynced =>
          file.lines, file.open := Glue(file.lines, file.open, Parsed(line)), false;
          return false, io;
        case Done =>
          file.lines, file.open := Glue(file.lines, file.open, Parsed(line)), false;
      }
      latestHash := chainHash;
      nextSeq := nextSeq + 1;
      ok := true;
    }

    /** `append`: also counts the method, after the record is durable. */
    method Append(h: string -> Digest, input: AuditInput) returns (ok: bool, io: Io)
      modifies this, file
      ensures AsLog() == AppendStep(h, old(AsLog()), CallRecord(input), io)
      ensures ok <==> io.Done?
      ensures methodsSummary == if ok then CountOne(old(methodsSummary), input.method_) else old(methodsSummary)
      ensures ok && old(Knows(h) && !file.open) ==>
        && Knows(h) && !file.open
        && RecordsOf(Lines(file.lines)) == old(RecordsOf(Lines(file.lines))) + [CallRecord(input)]
    {
      ghost var before, known := AsLog(), Knows(h) && !file.open;
      ok, io := AppendRecord(h, CallRecord(input));
      if ok {
        methodsSummary := CountOne(methodsSummary, input.method_);
      }
      if ok && known {
        CallIsCounted(h, before, input);
      }
    }
  }

  /** One line more of a file that verifies. */
  lemma RebuildStep(h: string -> Digest, file: seq<FileLine>, i: nat)
    requires FileValid(h, file) && i < |file|
    ensures var before, after := Lines(file[..i]), Lines(file[..i + 1]);
      if file[i].Parsed? then
        && after == before + [file[i].line] && file[i].line.seqNo == |before|
        && Tip(after) == file[i].line.chainHash && Summary(after) == CountLine(Summary(before), file[i].line)
      else after == before
  {
    assert file[..i + 1] == file[..i] + [file[i]];
    PrefixValid(h, file, i + 1);
    FileSnoc(file[..i], file[i]);
    ValidStep(h, file[..i], file[i]);
    if file[i].Parsed? {
      assert (Lines(file[..i]) + [file[i].line])[..|Lines(file[..i])|] == Lines(file[..i]);
    }
  }

  /** The rebuilding loop of `AuditStore::open`, over a file that verifies. */
  method Rebuild(h: string -> Digest, file: AuditFile) returns (store: AuditStore)
    requires FileValid(h, file.lines)
    ensures fresh(store) && store.file == file && store.Knows(h)
  {
    var latestHash: string := GenesisHash();
    var nextSeq := 0;
    var counts: MethodCounts := map[];
    var lines := file.lines;
    for i := 0 to |lines|
      invariant latestHash == Tip(Lines(lines[..i]))
      invariant nextSeq == |Lines(lines[..i])|
      invariant counts == Summary(Lines(lines[..i]))
    {
      RebuildStep(h, lines, i);
      if lines[i].Parsed? {
        var l := lines[i].line;
        latestHash := l.chainHash;
        nextSeq := l.seqNo + 1;
        counts := CountLine(counts, l);
      }
    }
    assert lines[..|lines|] == lines;
    store := new AuditStore(file, nextSeq, latestHash, counts);
  }

  lemma {:induction false} PrefixValid(h: string -> Digest, file: seq<FileLine>, k: nat)
    requires FileValid(h, file) && k <= |file|
    ensures FileValid(h, file[..k])
    decreases |file|
  {
    if k == |file| {
      assert file[..k] == file;
    } else {
      var n := |file| - 1;
      assert file == file[..n] + [file[n]];
      ValidStep(h, file[..n], file[n]);
      PrefixValid(h, file[..n], k);
      assert file[..n][..k] == file[..k];
    }
  }

  /** `AuditStore::open`: starts a chain with a genesis record, or rebuilds the store from an existing
      file - which it refuses exactly when that file does not verify. */
  method Open(h: string -> Digest, file: AuditFile, exists_: bool, serviceId: string, now: nat)
    returns (store: Option<AuditStore>)
    requires !exists_ ==> file.lines == [] && !file.open
    modifies file
    ensures store.Some? ==> store.value.file == file && store.value.Knows(h)
    ensures exists_ ==> file.lines == old(file.lines) && file.open == old(file.open)
    ensures exists_ ==> (store.Some? <==> FileValid(h, file.lines))
    ensures !exists_ && store.Some? ==> RecordsOf(Lines(file.lines)) == [GenesisRecord(serviceId, now)]
  {
    if exists_ {
      var report := VerifyPath(h, file.lines);
      if !report.valid {
        return None;
      }
      var s := Rebuild(h, file);
      return Some(s);
    }
    var s := new AuditStore(file, 0, GenesisHash(), map[]);
    ghost var before := s.AsLog();
    assert Consistent(h, before);
    var ok, io := s.AppendRecord(h, GenesisRecord(serviceId, now));
    if !ok {
      return None;
    }
    AppendFromConsistent(h, before, GenesisRecord(serviceId, now), io);
    WriteToConsistent(h, before, GenesisRecord(serviceId, now));
    GenesisHasNoMethod(serviceId, now);
    assert Lines(file.lines)[..0] == [];
    return Some(s);
  }

  lemma GenesisHasNoMethod(serviceId: string, now: nat)
    ensures MethodOf(GenesisRecord(serviceId, now)) == None
  {
    var es := GenesisRecord(serviceId, now).entries;
    assert FieldOf(es, "method") == FieldOf(es[1..], "method");
    assert FieldOf(es[1..], "method") == FieldOf(es[1..][1..], "method");
    assert FieldOf(es[1..][1..], "method") == FieldOf(es[1..][1..][1..], "method");
  }
}
