/**
 Connections sharing one audit store. Each runs `handle_mcp_connection`: read a request, compute the
 reply, append its record under the store's lock, and only then release the reply. A history is any
 interleaving of the connections' steps.
 */
module GatewayConnections {
  import opened Results
  import opened GatewayAudit
  import opened GatewayAuditStore

  /** A request; without a method it is answered with an error and not recorded. */
  datatype Request = Request(method_: Option<string>, input: AuditInput)

  /** `Logged` holds the index of the record written for the reply about to be released. */
  datatype Conn = Reading | Working(input: AuditInput) | Logged(input: AuditInput, at: nat) | Closed

  datatype Reply = Reply(input: AuditInput, at: nat)

  datatype World = World(log: Log, conns: map<nat, Conn>, released: seq<Reply>, refused: nat)

  datatype Action =
    | Accept(conn: nat)
    | Arrive(conn: nat, request: Request)
    | Record(conn: nat, io: Io)
    | Release(conn: nat, close: bool)

  function Next(h: string -> Digest, w: World, a: Action): World {
    match a
    case Accept(c) => if c in w.conns then w else w.(conns := w.conns[c := Reading])
    case Arrive(c, request) =>
      if c !in w.conns || !w.conns[c].Reading? then w
      else if request.method_.None? then w.(refused := w.refused + 1)
      else w.(conns := w.conns[c := Working(request.input.(method_ := request.method_.value))])
    case Record(c, io) =>
      if c !in w.conns || !w.conns[c].Working? then w
      else
        var input := w.conns[c].input;
        w.(log := AppendStep(h, w.log, CallRecord(input), io),
           conns := w.conns[c := if io.Done? then Logged(input, |Lines(w.log.file)|) else Closed])
    case Release(c, close) =>
      if c !in w.conns || !w.conns[c].Logged? then w
      else w.(released := w.released + [Reply(w.conns[c].input, w.conns[c].at)],
              conns := w.conns[c := if close then Closed else Reading])
  }

  function After(h: string -> Digest, log: Log, actions: seq<Action>): World {
    if actions == [] then World(log, map[], [], 0)
    else Next(h, After(h, log, actions[..|actions| - 1]), actions[|actions| - 1])
  }

  ghost predicate NoFaultyWrite(actions: seq<Action>) {
    forall i :: 0 <= i < |actions| && actions[i].Record? ==> Clean(actions[i].io)
  }

  ghost predicate Held(lines: seq<Line>, input: AuditInput, at: nat) {
    RecordAt(lines, at, CallRecord(input))
  }

  /** Every reply, released or about to be, has its record among these lines. */
  ghost predicate AllHeld(w: World, lines: seq<Line>) {
    && (forall c :: c in w.conns && w.conns[c].Logged? ==> Held(lines, w.conns[c].input, w.conns[c].at))
    && (forall i :: 0 <= i < |w.released| ==> Held(lines, w.released[i].input, w.released[i].at))
  }

  /** No two replies, released or about to be, share a record. */
  ghost predicate RecordsApart(w: World) {
    && (forall c, i :: c in w.conns && w.conns[c].Logged? && 0 <= i < |w.released| ==>
          w.conns[c].at != w.released[i].at)
    && (forall c, d :: c in w.conns && d in w.conns && c != d && w.conns[c].Logged? && w.conns[d].Logged? ==>
          w.conns[c].at != w.conns[d].at)
    && (forall i, j :: 0 <= i < j < |w.released| ==> w.released[i].at != w.released[j].at)
  }

  /** The action records a reply as successfully logged. */
  ghost predicate Logs(w: World, a: Action) {
    a.Record? && a.io.Done? && a.conn in w.conns && w.conns[a.conn].Working?
  }

  /** No reply was logged on top of an unterminated line. */
  ghost predicate NoGluedSuccess(h: string -> Digest, log: Log, actions: seq<Action>) {
    actions == [] ||
    (var n := |actions| - 1;
     var w := After(h, log, actions[..n]);
     NoGluedSuccess(h, log, actions[..n]) && !(Logs(w, actions[n]) && w.log.open))
  }

  ghost predicate AlwaysHeld(h: string -> Digest, log: Log, actions: seq<Action>) {
    var w := After(h, log, actions);
    AllHeld(w, Lines(w.log.file)) && (actions == [] || AlwaysHeld(h, log, actions[..|actions| - 1]))
  }

  ghost predicate OpenHasFile(w: World) {
    w.log.open ==> w.log.file != []
  }

  ghost predicate Inv(w: World) {
    OpenHasFile(w) && AllHeld(w, Settled(w.log)) && RecordsApart(w)
  }

  lemma HeldInLonger(w: World, lines: seq<Line>, more: seq<Line>)
    requires AllHeld(w, lines) && lines <= more
    ensures AllHeld(w, more)
  {
  }

  lemma LoggedIsHeld(h: string -> Digest, w: World, c: nat)
    requires Inv(w) && !w.log.open && Logs(w, Record(c, Done))
    ensures Inv(Next(h, w, Record(c, Done)))
  {
    var t := Next(h, w, Record(c, Done));
    AppendSettles(h, w.log, CallRecord(w.conns[c].input), Done);
    HeldInLonger(w, Settled(w.log), Settled(t.log));
    assert Held(Settled(t.log), w.conns[c].input, |Settled(w.log)|);
    assert RecordsApart(t);
  }

  lemma RecordKeepsInv(h: string -> Digest, w: World, c: nat, io: Io)
    requires Inv(w) && !(Logs(w, Record(c, io)) && w.log.open)
    ensures Inv(Next(h, w, Record(c, io)))
  {
    if c in w.conns && w.conns[c].Working? {
      if io.Done? {
        LoggedIsHeld(h, w, c);
      } else {
        AppendSettles(h, w.log, CallRecord(w.conns[c].input), io);
        HeldInLonger(w, Settled(w.log), Settled(Next(h, w, Record(c, io)).log));
      }
    }
  }

  lemma ArriveKeepsInv(h: string -> Digest, w: World, c: nat, request: Request)
    requires Inv(w)
    ensures Inv(Next(h, w, Arrive(c, request)))
  {
  }

  lemma ReleaseKeepsHeld(h: string -> Digest, w: World, c: nat, close: bool, lines: seq<Line>)
    requires AllHeld(w, lines)
    ensures AllHeld(Next(h, w, Release(c, close)), lines)
  {
  }

  lemma ReleaseKeepsApart(h: string -> Digest, w: World, c: nat, close: bool)
    requires RecordsApart(w)
    ensures RecordsApart(Next(h, w, Release(c, close)))
  {
  }

  lemma ActionKeepsInv(h: string -> Digest, w: World, a: Action)
    requires Inv(w) && !(Logs(w, a) && w.log.open)
    ensures Inv(Next(h, w, a))
  {
    match a
    case Accept(_) =>
    case Arrive(c, request) => ArriveKeepsInv(h, w, c, request);
    case Record(c, io) => RecordKeepsInv(h, w, c, io);
    case Release(c, close) =>
      ReleaseKeepsHeld(h, w, c, close, Settled(w.log));
      ReleaseKeepsApart(h, w, c, close);
  }

  lemma {:induction false} HistoryKeepsInv(h: string -> Digest, log: Log, actions: seq<Action>)
    requires !log.open && NoGluedSuccess(h, log, actions)
    ensures Inv(After(h, log, actions))
  {
    if actions != [] {
      var n := |actions| - 1;
      HistoryKeepsInv(h, log, actions[..n]);
      ActionKeepsInv(h, After(h, log, actions[..n]), actions[n]);
    }
  }

  lemma {:induction false} HistoryKeepsChain(h: string -> Digest, log: Log, actions: seq<Action>)
    requires Consistent(h, log) && NoFaultyWrite(actions)
    ensures Consistent(h, After(h, log, actions).log)
  {
    if actions != [] {
      var n := |actions| - 1;
      HistoryKeepsChain(h, log, actions[..n]);
      var w := After(h, log, actions[..n]);
      match actions[n] {
        case Record(c, io) =>
          if c in w.conns && w.conns[c].Working? {
            AppendFromConsistent(h, w.log, CallRecord(w.conns[c].input), io);
          }
        case _ =>
      }
    }
  }

  /** A reply logged on top of an unterminated line has no record. */
  lemma GluedReplyIsLost(h: string -> Digest, w: World, a: Action)
    requires OpenHasFile(w) && Logs(w, a) && w.log.open
    ensures !AllHeld(Next(h, w, a), Lines(Next(h, w, a).log.file))
  {
    AppendSettles(h, w.log, CallRecord(w.conns[a.conn].input), Done);
    var t := Next(h, w, a);
    assert !Held(Lines(t.log.file), t.conns[a.conn].input, t.conns[a.conn].at);
  }

  /**
   In every interleaving of any number of connections, from a terminated file on: in every state each
   reply, released or about to be, has its own record in the file - written before the release, for
   that very call - exactly when no reply was logged while the file's last line was unterminated.
   */
  lemma {:induction false} EveryReplyIsLogged(h: string -> Digest, log: Log, actions: seq<Action>)
    requires !log.open
    ensures AlwaysHeld(h, log, actions) <==> NoGluedSuccess(h, log, actions)
    ensures NoGluedSuccess(h, log, actions) ==> RecordsApart(After(h, log, actions))
  {
    if actions != [] {
      var n := |actions| - 1;
      var before, w := After(h, log, actions[..n]), After(h, log, actions);
      EveryReplyIsLogged(h, log, actions[..n]);
      if NoGluedSuccess(h, log, actions[..n]) {
        HistoryKeepsInv(h, log, actions[..n]);
        if NoGluedSuccess(h, log, actions) {
          ActionKeepsInv(h, before, actions[n]);
          SettledIsPrefix(w.log);
          HeldInLonger(w, Settled(w.log), Lines(w.log.file));
        } else {
          GluedReplyIsLost(h, before, actions[n]);
        }
      }
    }
  }

  /** While every append either succeeds or writes nothing, the file verifies and the store's sequence
      number and hash are the file's; and no reply is ever logged in vain. */
  lemma {:induction false} CleanAppendsKeepReplies(h: string -> Digest, log: Log, actions: seq<Action>)
    requires Consistent(h, log) && NoFaultyWrite(actions)
    ensures Consistent(h, After(h, log, actions).log) && AlwaysHeld(h, log, actions)
  {
    HistoryKeepsChain(h, log, actions);
    CleanNeverGlues(h, log, actions);
    EveryReplyIsLogged(h, log, actions);
  }

  lemma {:induction false} CleanNeverGlues(h: string -> Digest, log: Log, actions: seq<Action>)
    requires Consistent(h, log) && NoFaultyWrite(actions)
    ensures NoGluedSuccess(h, log, actions)
  {
    if actions != [] {
      var n := |actions| - 1;
      CleanNeverGlues(h, log, actions[..n]);
      HistoryKeepsChain(h, log, actions[..n]);
    }
  }

  // ---------------------------------------------------------------- what becomes of a request

  /** A new connection's call goes all the way: it is read, recorded, and its reply released with the record's
      index; then the connection closes or reads on. */
  lemma CallGoesThrough(h: string -> Digest, w: World, c: nat, request: Request, close: bool)
    requires c !in w.conns && request.method_.Some?
    ensures var input := request.input.(method_ := request.method_.value);
      var read := Next(h, Next(h, w, Accept(c)), Arrive(c, request));
      var done := Next(h, Next(h, read, Record(c, Done)), Release(c, close));
      && done.log == AppendStep(h, w.log, CallRecord(input), Done)
      && done.released == w.released + [Reply(input, |Lines(w.log.file)|)]
      && c in done.conns && done.conns[c] == (if close then Closed else Reading) && done.refused == w.refused
  {
  }

  /** A request without a method is answered with an error, and the connection reads on. */
  lemma NoMethodNoRecord(h: string -> Digest, w: World, c: nat, request: Request)
    requires c in w.conns && w.conns[c].Reading? && request.method_.None?
    ensures Next(h, w, Arrive(c, request)) == w.(refused := w.refused + 1)
  {
  }

  /** A reply whose record fails is never released: the connection closes. */
  lemma FailedRecordCloses(h: string -> Digest, w: World, c: nat, io: Io)
    requires c in w.conns && w.conns[c].Working? && !io.Done?
    ensures var t := Next(h, w, Record(c, io));
      && c in t.conns && t.conns[c] == Closed && t.released == w.released
      && forall close :: Next(h, t, Release(c, close)) == t
  {
  }
}
