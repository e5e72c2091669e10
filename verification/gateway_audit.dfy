/**
 The gateway's hash-chained audit log: appending, verifying, reopening, and what a matching latest
 hash proves. The hash is any function `h` from text to 64 hexadecimal characters.
 */
module GatewayAudit {
  import opened Results
  import opened JsonValue
  import opened JsonCanonical
  import Text

  const AUDIT_SCHEMA := "confidential-agent/gateway-audit/v1"

  /** `"0".repeat(n)`. */
  function Zeros(n: nat): (s: string)
    ensures |s| == n
  {
    if n == 0 then "" else Zeros(n - 1) + "0"
  }

  type Digest = s: string | |s| == 64 witness Zeros(64)

  function GenesisHash(): Digest {
    Zeros(64)
  }

  datatype Line = Line(schema: string, seqNo: nat, prevHash: string, chainHash: string, record: Json)

  /** A line of the audit file as the verifier sees it. */
  datatype FileLine = Blank | Unparsable | Parsed(line: Line)

  /** The text one link of the chain hashes. */
  function Input(prevHash: string, record: Json): string {
    prevHash + Canonical(record)
  }

  function ChainHash(h: string -> Digest, prevHash: string, record: Json): string {
    h(Input(prevHash, record))
  }

  // ---------------------------------------------------------------- valid files

  /** The records of a file, in order. */
  function Lines(file: seq<FileLine>): seq<Line> {
    if file == [] then []
    else
      var n := |file| - 1;
      Lines(file[..n]) + if file[n].Parsed? then [file[n].line] else []
  }

  /** The hash the next record must chain to. */
  function Tip(lines: seq<Line>): string {
    if lines == [] then GenesisHash() else lines[|lines| - 1].chainHash
  }

  ghost predicate LinkOk(h: string -> Digest, before: seq<Line>, l: Line) {
    && l.schema == AUDIT_SCHEMA
    && l.seqNo == |before|
    && l.prevHash == Tip(before)
    && l.chainHash == ChainHash(h, l.prevHash, l.record)
  }

  ghost predicate ValidChain(h: string -> Digest, lines: seq<Line>) {
    lines != [] ==>
      var n := |lines| - 1;
      ValidChain(h, lines[..n]) && LinkOk(h, lines[..n], lines[n])
  }

  ghost predicate FileValid(h: string -> Digest, file: seq<FileLine>) {
    Unparsable !in file && ValidChain(h, Lines(file))
  }

  lemma ChainSnoc(h: string -> Digest, lines: seq<Line>, l: Line)
    ensures ValidChain(h, lines + [l]) <==> ValidChain(h, lines) && LinkOk(h, lines, l)
  {
    assert (lines + [l])[..|lines|] == lines;
  }

  lemma FileSnoc(file: seq<FileLine>, f: FileLine)
    ensures Lines(file + [f]) == Lines(file) + if f.Parsed? then [f.line] else []
  {
    assert (file + [f])[..|file|] == file;
  }

  // ---------------------------------------------------------------- verifying

  datatype LineError =
    | InvalidJson(line: nat) | BadSchema(line: nat) | BadSeq(line: nat) | BadPrev(line: nat) | BadHash(line: nat)

  datatype Report = Report(valid: bool, totalRecords: nat, latestHash: Option<string>, errors: seq<LineError>)

  /** The checks of one parsed line. */
  method CheckLine(h: string -> Digest, l: Line, expectedSeq: nat, prevHash: string, at: nat)
    returns (errors: seq<LineError>)
    ensures errors == [] <==>
      && l.schema == AUDIT_SCHEMA && l.seqNo == expectedSeq && l.prevHash == prevHash
      && l.chainHash == ChainHash(h, l.prevHash, l.record)
  {
    errors := [];
    if l.schema != AUDIT_SCHEMA {
      errors := errors + [BadSchema(at)];
    }
    if l.seqNo != expectedSeq {
      errors := errors + [BadSeq(at)];
    }
    if l.prevHash != prevHash {
      errors := errors + [BadPrev(at)];
    }
    var expectedHash := ChainHash(h, l.prevHash, l.record);
    if l.chainHash != expectedHash {
      errors := errors + [BadHash(at)];
    }
  }

  ghost predicate ValidSoFar(h: string -> Digest, file: seq<FileLine>, errors: seq<LineError>) {
    errors == [] <==> FileValid(h, file)
  }

  lemma ValidStep(h: string -> Digest, file: seq<FileLine>, f: FileLine)
    ensures FileValid(h, file + [f]) <==>
      FileValid(h, file) && !f.Unparsable? && (f.Parsed? ==> LinkOk(h, Lines(file), f.line))
  {
    FileSnoc(file, f);
    assert Unparsable in file + [f] <==> Unparsable in file || f.Unparsable?;
    if f.Parsed? {
      ChainSnoc(h, Lines(file), f.line);
    } else {
      assert Lines(file) + [] == Lines(file);
    }
  }

  ghost function LatestHash(lines: seq<Line>): Option<string> {
    if lines == [] then None else Some(Tip(lines))
  }

  /** `AuditStore::verify_path`, on the lines of an existing file. */
  method VerifyPath(h: string -> Digest, file: seq<FileLine>) returns (r: Report)
    ensures r.valid <==> FileValid(h, file)
    ensures r.valid <==> r.errors == []
    ensures r.totalRecords == |Lines(file)|
    ensures r.latestHash == LatestHash(Lines(file))
  {
    var prevHash: string := GenesisHash();
    var expectedSeq := 0;
    var latestHash: Option<string> := None;
    var errors: seq<LineError> := [];
    for i := 0 to |file|
      invariant prevHash == Tip(Lines(file[..i]))
      invariant expectedSeq == |Lines(file[..i])|
      invariant latestHash == LatestHash(Lines(file[..i]))
      invariant ValidSoFar(h, file[..i], errors)
    {
      assert file[..i + 1] == file[..i] + [file[i]];
      FileSnoc(file[..i], file[i]);
      ValidStep(h, file[..i], file[i]);
      match file[i]
      case Blank =>
      case Unparsable => errors := errors + [InvalidJson(i + 1)];
      case Parsed(l) =>
        var found := CheckLine(h, l, expectedSeq, prevHash, i + 1);
        errors := errors + found;
        prevHash := l.chainHash;
        latestHash := Some(l.chainHash);
        expectedSeq := expectedSeq + 1;
    }
    assert file[..|file|] == file;
    r := Report(errors == [], expectedSeq, latestHash, errors);
  }

  // ---------------------------------------------------------------- tamper evidence

  /** Some two records of the files hash alike although the hashed texts differ. */
  ghost predicate Collision(h: string -> Digest, a: seq<Line>, b: seq<Line>) {
    exists i, j :: 0 <= i < |a| && 0 <= j < |b|
      && Input(a[i].prevHash, a[i].record) != Input(b[j].prevHash, b[j].record)
      && ChainHash(h, a[i].prevHash, a[i].record) == ChainHash(h, b[j].prevHash, b[j].record)
  }

  /** Some record of the file hashes to the 64 zeros a chain starts from. */
  ghost predicate ZeroHash(h: string -> Digest, a: seq<Line>) {
    exists i :: 0 <= i < |a| && ChainHash(h, a[i].prevHash, a[i].record) == GenesisHash()
  }

  ghost predicate SameLine(a: Line, b: Line) {
    a.schema == b.schema && a.seqNo == b.seqNo && a.prevHash == b.prevHash && a.chainHash == b.chainHash
    && SameValue(a.record, b.record)
  }

  ghost predicate SameLines(a: seq<Line>, b: seq<Line>) {
    |a| == |b| && forall i :: 0 <= i < |a| ==> SameLine(a[i], b[i])
  }

  ghost predicate RecordsWellFormed(a: seq<Line>) {
    forall i :: 0 <= i < |a| ==> WellFormed(a[i].record)
  }

  /** What two chains with the same tip show. */
  ghost predicate Evidence(h: string -> Digest, a: seq<Line>, b: seq<Line>) {
    SameLines(a, b) || Collision(h, a, b) || ZeroHash(h, a) || ZeroHash(h, b)
  }

  lemma TipLength(h: string -> Digest, a: seq<Line>)
    requires ValidChain(h, a)
    ensures |Tip(a)| == 64
  {
  }

  lemma SplitInput(p: string, s: string, q: string, t: string)
    requires |p| == |q| && p + s == q + t
    ensures p == q && s == t
  {
    assert p == (p + s)[..|p|] && q == (q + t)[..|q|];
    assert s == (p + s)[|p|..] && t == (q + t)[|q|..];
  }

  /** The last records of two non-empty chains with the same tip: either their hashed texts collide,
      or the records agree and so do the tips before them. */
  lemma LastLineAgrees(h: string -> Digest, a: seq<Line>, x: Line, b: seq<Line>, y: Line)
    requires ValidChain(h, a) && ValidChain(h, b) && LinkOk(h, a, x) && LinkOk(h, b, y)
    requires WellFormed(x.record) && WellFormed(y.record)
    requires Input(x.prevHash, x.record) == Input(y.prevHash, y.record)
    ensures Tip(a) == Tip(b)
    ensures |a| == |b| ==> SameLine(x, y)
  {
    TipLength(h, a);
    TipLength(h, b);
    SplitInput(x.prevHash, Canonical(x.record), y.prevHash, Canonical(y.record));
    CanonicalIsFaithful(x.record, y.record);
  }

  lemma SnocEvidence(h: string -> Digest, a: seq<Line>, x: Line, b: seq<Line>, y: Line)
    requires Evidence(h, a, b)
    requires |a| == |b| ==> SameLine(x, y)
    ensures Evidence(h, a + [x], b + [y])
  {
    var s, t := a + [x], b + [y];
    if Collision(h, a, b) {
      var i, j :| 0 <= i < |a| && 0 <= j < |b|
        && Input(a[i].prevHash, a[i].record) != Input(b[j].prevHash, b[j].record)
        && ChainHash(h, a[i].prevHash, a[i].record) == ChainHash(h, b[j].prevHash, b[j].record);
      assert s[i] == a[i] && t[j] == b[j];
    } else if ZeroHash(h, a) {
      var i :| 0 <= i < |a| && ChainHash(h, a[i].prevHash, a[i].record) == GenesisHash();
      assert s[i] == a[i];
    } else if ZeroHash(h, b) {
      var i :| 0 <= i < |b| && ChainHash(h, b[i].prevHash, b[i].record) == GenesisHash();
      assert t[i] == b[i];
    }
  }

  lemma SnocCollision(h: string -> Digest, a: seq<Line>, x: Line, b: seq<Line>, y: Line)
    requires Input(x.prevHash, x.record) != Input(y.prevHash, y.record)
    requires ChainHash(h, x.prevHash, x.record) == ChainHash(h, y.prevHash, y.record)
    ensures Collision(h, a + [x], b + [y])
  {
    assert (a + [x])[|a|] == x && (b + [y])[|b|] == y;
  }

  lemma EmptyTip(h: string -> Digest, a: seq<Line>)
    requires ValidChain(h, a) && a != [] && Tip(a) == GenesisHash()
    ensures ZeroHash(h, a)
  {
    var n := |a| - 1;
    assert ChainHash(h, a[n].prevHash, a[n].record) == GenesisHash();
  }

  lemma LastLinesStep(h: string -> Digest, a: seq<Line>, x: Line, b: seq<Line>, y: Line)
    requires ValidChain(h, a) && LinkOk(h, a, x) && ValidChain(h, b) && LinkOk(h, b, y)
    requires WellFormed(x.record) && WellFormed(y.record) && x.chainHash == y.chainHash
    requires Tip(a) == Tip(b) ==> Evidence(h, a, b)
    ensures Evidence(h, a + [x], b + [y])
  {
    if Input(x.prevHash, x.record) == Input(y.prevHash, y.record) {
      LastLineAgrees(h, a, x, b, y);
      SnocEvidence(h, a, x, b, y);
    } else {
      SnocCollision(h, a, x, b, y);
    }
  }

  /** A non-empty chain is a chain, and a line linked to it that ends it. */
  lemma ChainParts(h: string -> Digest, a: seq<Line>)
    requires a != [] && ValidChain(h, a) && RecordsWellFormed(a)
    ensures var s, x := a[..|a| - 1], a[|a| - 1];
      && a == s + [x] && ValidChain(h, s) && RecordsWellFormed(s)
      && LinkOk(h, s, x) && WellFormed(x.record) && x.chainHash == Tip(a)
  {
  }

  lemma {:induction false} SameTipSameRecords(h: string -> Digest, a: seq<Line>, b: seq<Line>)
    requires ValidChain(h, a) && ValidChain(h, b) && Tip(a) == Tip(b)
    requires RecordsWellFormed(a) && RecordsWellFormed(b)
    ensures Evidence(h, a, b)
    decreases |a|
  {
    if a == [] && b == [] {
      assert SameLines(a, b);
    } else if a == [] {
      EmptyTip(h, b);
    } else if b == [] {
      EmptyTip(h, a);
    } else {
      var m, n := |a| - 1, |b| - 1;
      var s, t := a[..m], b[..n];
      ChainParts(h, a);
      ChainParts(h, b);
      if Tip(s) == Tip(t) {
        SameTipSameRecords(h, s, t);
      }
      LastLinesStep(h, s, a[m], t, b[n]);
    }
  }

  /**
   Two files that both verify and report the same latest hash hold the same records in the same
   order. No assumption about the hash: otherwise the two files themselves exhibit a collision, or
   a record hashing to 64 zeros.
   */
  lemma TamperEvidence(h: string -> Digest, a: seq<FileLine>, b: seq<FileLine>)
    requires FileValid(h, a) && FileValid(h, b)
    requires RecordsWellFormed(Lines(a)) && RecordsWellFormed(Lines(b))
    requires Tip(Lines(a)) == Tip(Lines(b))
    ensures SameLines(Lines(a), Lines(b)) || Collision(h, Lines(a), Lines(b))
         || ZeroHash(h, Lines(a)) || ZeroHash(h, Lines(b))
  {
    SameTipSameRecords(h, Lines(a), Lines(b));
  }
}
