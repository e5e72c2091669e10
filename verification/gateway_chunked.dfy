/**
 Decoding chunked HTTP response bodies (section 7.1 of RFC 9112), and exactly which bodies decode to
 what.
 */
module GatewayChunked {
  import opened Results

  type Byte = n: int | 0 <= n < 256

  type Bytes = seq<Byte>

  const MAX_BODY_BYTES := 16 * 1024 * 1024

  const USIZE_LIMIT := 0x1_0000_0000_0000_0000

  const CR: Byte := 13
  const LF: Byte := 10
  const SEMICOLON: Byte := 59

  function Crlf(): Bytes {
    [CR, LF]
  }

  datatype ChunkError =
    | MissingSizeTerminator | SizeNotUtf8 | BadSize | SizeOverflow | Truncated | MissingChunkCrlf | TooLarge
    | MissingTrailerTerminator | TrailerNotUtf8 | TrailingData

  // ---------------------------------------------------------------- text of a size line

  predicate Continuation(b: Byte) {
    0x80 <= b <= 0xBF
  }

  /** Length of the well-formed UTF-8 sequence a text starts with; zero if there is none. */
  function SequenceLength(s: Bytes): (n: nat)
    ensures n <= |s|
  {
    if s == [] then 0
    else if s[0] < 0x80 then 1
    else if |s| >= 2 && 0xC2 <= s[0] <= 0xDF && Continuation(s[1]) then 2
    else if |s| >= 3 && Continuation(s[2])
      && (if s[0] == 0xE0 then 0xA0 <= s[1] <= 0xBF
          else if s[0] == 0xED then 0x80 <= s[1] <= 0x9F
          else 0xE1 <= s[0] <= 0xEF && Continuation(s[1])) then 3
    else if |s| >= 4 && Continuation(s[2]) && Continuation(s[3])
      && (if s[0] == 0xF0 then 0x90 <= s[1] <= 0xBF
          else if s[0] == 0xF4 then 0x80 <= s[1] <= 0x8F
          else 0xF1 <= s[0] <= 0xF3 && Continuation(s[1])) then 4
    else 0
  }

  predicate ValidUtf8(s: Bytes) {
    s == [] || (SequenceLength(s) > 0 && ValidUtf8(s[SequenceLength(s)..]))
  }

  predicate AsciiSpace(b: Byte) {
    9 <= b <= 13 || b == 32
  }

  /** The UTF-8 encodings of the white-space characters outside ASCII. */
  predicate WideSpace(s: Bytes) {
    || (|s| == 2 && s[0] == 0xC2 && (s[1] == 0x85 || s[1] == 0xA0))
    || (|s| == 3 && s[0] == 0xE1 && s[1] == 0x9A && s[2] == 0x80)
    || (|s| == 3 && s[0] == 0xE2 && s[1] == 0x80 && (0x80 <= s[2] <= 0x8A || s[2] in {0xA8, 0xA9, 0xAF}))
    || (|s| == 3 && s[0] == 0xE2 && s[1] == 0x81 && s[2] == 0x9F)
    || (|s| == 3 && s[0] == 0xE3 && s[1] == 0x80 && s[2] == 0x80)
  }

  function TrimStart(s: Bytes): Bytes {
    if s != [] && AsciiSpace(s[0]) then TrimStart(s[1..])
    else if |s| >= 2 && WideSpace(s[..2]) then TrimStart(s[2..])
    else if |s| >= 3 && WideSpace(s[..3]) then TrimStart(s[3..])
    else s
  }

  function TrimEnd(s: Bytes): Bytes {
    var n := |s|;
    if s != [] && AsciiSpace(s[n - 1]) then TrimEnd(s[..n - 1])
    else if n >= 2 && WideSpace(s[n - 2..]) then TrimEnd(s[..n - 2])
    else if n >= 3 && WideSpace(s[n - 3..]) then TrimEnd(s[..n - 3])
    else s
  }

  /** The part before the first semicolon: a chunk's extensions are ignored. */
  function BeforeSemicolon(s: Bytes): Bytes {
    if s == [] || s[0] == SEMICOLON then [] else [s[0]] + BeforeSemicolon(s[1..])
  }

  function HexDigitValue(b: Byte): Option<nat> {
    if 48 <= b <= 57 then Some(b - 48)
    else if 97 <= b <= 102 then Some(b - 87)
    else if 65 <= b <= 70 then Some(b - 55)
    else None
  }

  function HexValue(s: Bytes): Option<nat> {
    if s == [] then Some(0)
    else
      var n := |s| - 1;
      match HexValue(s[..n])
      case None => None
      case Some(high) =>
        match HexDigitValue(s[n])
        case None => None
        case Some(low) => Some(high * 16 + low)
  }

  /** `usize::from_str_radix(text, 16)`: hexadecimal digits after an optional plus sign. */
  function ParseHex(s: Bytes): Option<nat> {
    var digits := if s != [] && s[0] == 43 then s[1..] else s;
    if digits == [] then None
    else
      match HexValue(digits)
      case Some(n) => if n < USIZE_LIMIT then Some(n) else None
      case None => None
  }

  function ParseSize(line: Bytes): Option<nat> {
    ParseHex(TrimEnd(TrimStart(BeforeSemicolon(line))))
  }

  /** How a decoder reads a line: what text is, and what size a size line announces. */
  datatype Lines = Lines(text: Bytes -> bool, size: Bytes -> Option<nat>)

  /** The gateway's reading of a line. */
  function GatewayLines(): Lines {
    Lines(ValidUtf8, ParseSize)
  }

  // ---------------------------------------------------------------- lines

  ghost predicate NoCrlf(s: Bytes) {
    forall i :: 0 <= i < |s| - 1 ==> !(s[i] == CR && s[i + 1] == LF)
  }

  /** Position of the first CRLF from `i` on. */
  function CrlfFrom(s: Bytes, i: nat): (r: Option<nat>)
    ensures r.Some? ==> i <= r.value && r.value + 2 <= |s|
    decreases |s| - i
  {
    if i + 2 > |s| then None
    else if s[i] == CR && s[i + 1] == LF then Some(i)
    else CrlfFrom(s, i + 1)
  }

  function FindCrlf(s: Bytes): Option<nat> {
    CrlfFrom(s, 0)
  }

  ghost predicate FirstCrlf(s: Bytes, e: nat) {
    e + 2 <= |s| && s[e] == CR && s[e + 1] == LF && forall i :: 0 <= i < e ==> !(s[i] == CR && s[i + 1] == LF)
  }

  lemma {:induction false} CrlfFromIsFirst(s: Bytes, i: nat)
    requires forall k :: 0 <= k < i && k + 1 < |s| ==> !(s[k] == CR && s[k + 1] == LF)
    ensures match CrlfFrom(s, i) case None => NoCrlf(s) case Some(e) => FirstCrlf(s, e)
    decreases |s| - i
  {
    if i + 2 <= |s| && !(s[i] == CR && s[i + 1] == LF) {
      CrlfFromIsFirst(s, i + 1);
    }
  }

  lemma FindsFirstCrlf(s: Bytes)
    ensures match FindCrlf(s) case None => NoCrlf(s) case Some(e) => FirstCrlf(s, e)
  {
    CrlfFromIsFirst(s, 0);
  }

  lemma FirstCrlfUnique(s: Bytes, e: nat)
    requires FirstCrlf(s, e)
    ensures FindCrlf(s) == Some(e)
  {
    FindsFirstCrlf(s);
  }

  /** The search as a scan from `pos`. */
  method ScanCrlf(body: Bytes, pos: nat) returns (r: Option<nat>)
    requires pos <= |body|
    ensures match FindCrlf(body[pos..]) case Some(e) => r == Some(pos + e) case None => r == None
  {
    var i := pos;
    while i + 2 <= |body|
      invariant pos <= i <= |body|
      invariant forall k :: pos <= k < i && k + 1 < |body| ==> !(body[k] == CR && body[k + 1] == LF)
    {
      if body[i] == CR && body[i + 1] == LF {
        FirstCrlfUnique(body[pos..], i - pos);
        return Some(i);
      }
      i := i + 1;
    }
    FindsFirstCrlf(body[pos..]);
    r := None;
  }

  // ---------------------------------------------------------------- decoding

  /** The trailer section: lines up to an empty one, which must end the body. */
  function Trailers(lines: Lines, rest: Bytes): Option<ChunkError>
    decreases |rest|
  {
    match FindCrlf(rest)
    case None => Some(MissingTrailerTerminator)
    case Some(e) =>
      if !lines.text(rest[..e]) then Some(TrailerNotUtf8)
      else if e == 0 then if |rest| == 2 then None else Some(TrailingData)
      else Trailers(lines, rest[e + 2..])
  }

  /** What a body starts with: the last chunk, whose trailers begin at `start`, or `size` bytes of data
      at `start`. */
  datatype Piece = LastChunk(start: nat) | DataChunk(start: nat, size: nat)

  ghost predicate Inside(piece: Piece, rest: Bytes) {
    && 2 <= piece.start <= |rest|
    && (piece.DataChunk? ==> piece.size > 0 && piece.start + piece.size + 2 <= |rest|)
  }

  /** Reads one chunk head at offset `pos` of the body, `have` bytes having been decoded. */
  function FirstChunk(lines: Lines, rest: Bytes, pos: nat, have: nat): (r: Result<Piece, ChunkError>)
    ensures r.Ok? ==> Inside(r.value, rest)
  {
    match FindCrlf(rest)
    case None => Err(MissingSizeTerminator)
    case Some(e) =>
      var start := e + 2;
      if !lines.text(rest[..e]) then Err(SizeNotUtf8)
      else
        match lines.size(rest[..e])
        case None => Err(BadSize)
        case Some(size) =>
          if size == 0 then Ok(LastChunk(start))
          else if pos + start + size >= USIZE_LIMIT then Err(SizeOverflow)
          else if start + size + 2 > |rest| then Err(Truncated)
          else if rest[start + size] != CR || rest[start + size + 1] != LF then Err(MissingChunkCrlf)
          else if have + size > MAX_BODY_BYTES then Err(TooLarge)
          else Ok(DataChunk(start, size))
  }

  ghost predicate StaysInside(head: (Bytes, nat, nat) -> Result<Piece, ChunkError>) {
    forall rest, pos, have :: head(rest, pos, have).Ok? ==> Inside(head(rest, pos, have).value, rest)
  }

  type Head = f: (Bytes, nat, nat) -> Result<Piece, ChunkError> | StaysInside(f)
    ghost witness (rest: Bytes, pos: nat, have: nat) => Err(MissingSizeTerminator)

  /** How a decoder reads a chunk head at an offset, so many bytes having been decoded, and a trailer
      section. */
  datatype Reader = Reader(head: Head, trailers: Bytes -> Option<ChunkError>)

  /** Decodes what is left of a body from offset `pos`, after `acc` has been decoded. */
  ghost function Decode(reader: Reader, rest: Bytes, pos: nat, acc: Bytes): Result<Bytes, ChunkError>
    decreases |rest|
  {
    match reader.head(rest, pos, |acc|)
    case Err(error) => Err(error)
    case Ok(LastChunk(start)) =>
      (match reader.trailers(rest[start..]) case Some(error) => Err(error) case None => Ok(acc))
    case Ok(DataChunk(start, size)) =>
      Decode(reader, rest[start + size + 2..], pos + start + size + 2, acc + rest[start..start + size])
  }

  ghost predicate HeadAgrees(reader: Reader, lines: Lines, rest: Bytes, pos: nat, have: nat) {
    reader.head(rest, pos, have) == FirstChunk(lines, rest, pos, have)
  }

  ghost predicate TrailersAgree(reader: Reader, lines: Lines, rest: Bytes) {
    reader.trailers(rest) == Trailers(lines, rest)
  }

  /** The reader reads lines like this; instances are named where they are needed. */
  ghost predicate ReadsLike(reader: Reader, lines: Lines) {
    && (forall rest, pos, have {:trigger HeadAgrees(reader, lines, rest, pos, have)} ::
          HeadAgrees(reader, lines, rest, pos, have))
    && (forall rest {:trigger TrailersAgree(reader, lines, rest)} :: TrailersAgree(reader, lines, rest))
  }

  ghost function GatewayReader(): Reader {
    Reader((rest: Bytes, pos: nat, have: nat) => FirstChunk(GatewayLines(), rest, pos, have),
           (rest: Bytes) => Trailers(GatewayLines(), rest))
  }

  lemma GatewayReads()
    ensures ReadsLike(GatewayReader(), GatewayLines())
  {
  }

  /** The inner loop of `decode_chunked_body`. */
  method ReadTrailers(lines: Lines, body: Bytes, from: nat) returns (error: Option<ChunkError>)
    requires from <= |body|
    ensures error == Trailers(lines, body[from..])
  {
    var pos := from;
    while true
      invariant from <= pos <= |body|
      invariant Trailers(lines, body[from..]) == Trailers(lines, body[pos..])
      decreases |body| - pos
    {
      var end := ScanCrlf(body, pos);
      if end.None? {
        return Some(MissingTrailerTerminator);
      }
      var trailer := body[pos..end.value];
      assert trailer == body[pos..][..end.value - pos];
      if !lines.text(trailer) {
        return Some(TrailerNotUtf8);
      }
      assert body[end.value + 2..] == body[pos..][end.value - pos + 2..];
      pos := end.value + 2;
      if trailer == [] {
        return if pos != |body| then Some(TrailingData) else None;
      }
    }
  }

  /** One chunk of the outer loop; `start` and `size` are relative to `pos`. Every index is checked
      to be in range. */
  method ReadChunk(lines: Lines, body: Bytes, pos: nat, have: nat) returns (r: Result<Piece, ChunkError>)
    requires pos <= |body|
    ensures r == FirstChunk(lines, body[pos..], pos, have)
  {
    var lineEnd := ScanCrlf(body, pos);
    if lineEnd.None? {
      return Err(MissingSizeTerminator);
    }
    var sizeLine := body[pos..lineEnd.value];
    assert sizeLine == body[pos..][..lineEnd.value - pos];
    if !lines.text(sizeLine) {
      return Err(SizeNotUtf8);
    }
    var size := lines.size(sizeLine);
    if size.None? {
      return Err(BadSize);
    }
    var start := lineEnd.value + 2;
    if size.value == 0 {
      return Ok(LastChunk(start - pos));
    }
    var chunkEnd := start + size.value;
    if chunkEnd >= USIZE_LIMIT {
      return Err(SizeOverflow);
    }
    if chunkEnd > (if |body| >= 2 then |body| - 2 else 0) {
      return Err(Truncated);
    }
    if body[chunkEnd] != CR || body[chunkEnd + 1] != LF {
      return Err(MissingChunkCrlf);
    }
    if have + size.value > MAX_BODY_BYTES {
      return Err(TooLarge);
    }
    r := Ok(DataChunk(start - pos, size.value));
  }

  /** One step of the decoder over a data chunk whose parts are named. */
  lemma DecodeData(reader: Reader, rest: Bytes, pos: nat, acc: Bytes, start: nat, data: Bytes, more: Bytes,
                   next: nat, sum: Bytes, r: Result<Bytes, ChunkError>)
    requires reader.head(rest, pos, |acc|) == Ok(DataChunk(start, |data|))
    requires rest[start..start + |data|] == data && rest[start + |data| + 2..] == more
    requires next == pos + start + |data| + 2 && sum == acc + data
    requires Decode(reader, more, next, sum) == r
    ensures Decode(reader, rest, pos, acc) == r
  {
  }

  /** The decoder's last step. */
  lemma DecodeLast(reader: Reader, rest: Bytes, pos: nat, acc: Bytes, start: nat, error: Option<ChunkError>)
    requires start <= |rest| && reader.head(rest, pos, |acc|) == Ok(LastChunk(start))
    requires reader.trailers(rest[start..]) == error
    ensures Decode(reader, rest, pos, acc) == if error.Some? then Err(error.value) else Ok(acc)
  {
  }

  /** A piece of the rest is the same piece of the body. */
  lemma SamePiece(body: Bytes, pos: nat, start: nat, size: nat)
    requires pos + start + size + 2 <= |body|
    ensures body[pos..][start..start + size] == body[pos + start..pos + start + size]
    ensures body[pos..][start + size + 2..] == body[pos + start + size + 2..]
  {
  }

  /** The loop of `decode_chunked_body`. */
  method DecodeBody(lines: Lines, body: Bytes, ghost reader: Reader) returns (r: Result<Bytes, ChunkError>)
    requires ReadsLike(reader, lines)
    ensures r == Decode(reader, body, 0, [])
  {
    var decoded: Bytes := [];
    var pos := 0;
    ghost var result := Decode(reader, body, 0, []);
    ghost var rest := body;
    while true
      invariant pos <= |body| && rest == body[pos..]
      invariant Decode(reader, rest, pos, decoded) == result
      decreases |body| - pos
    {
      var piece := ReadChunk(lines, body, pos, |decoded|);
      assert reader.head(rest, pos, |decoded|) == piece by {
        assert HeadAgrees(reader, lines, rest, pos, |decoded|);
      }
      match piece
      case Err(error) => return Err(error);
      case Ok(LastChunk(start)) =>
        var error := ReadTrailers(lines, body, pos + start);
        assert reader.trailers(rest[start..]) == error by {
          assert rest[start..] == body[pos + start..] && TrailersAgree(reader, lines, rest[start..]);
        }
        DecodeLast(reader, rest, pos, decoded, start, error);
        return if error.Some? then Err(error.value) else Ok(decoded);
      case Ok(DataChunk(start, size)) =>
        var data, next := body[pos + start..pos + start + size], pos + start + size + 2;
        SamePiece(body, pos, start, size);
        DecodeData(reader, rest, pos, decoded, start, data, body[next..], next, decoded + data,
          Decode(reader, body[next..], next, decoded + data));
        decoded, pos, rest := decoded + data, next, body[next..];
    }
  }

  /** `decode_chunked_body`. */
  method DecodeChunkedBody(body: Bytes) returns (r: Result<Bytes, ChunkError>)
    ensures r == Decode(GatewayReader(), body, 0, [])
  {
    GatewayReads();
    r := DecodeBody(GatewayLines(), body, GatewayReader());
  }

  // ---------------------------------------------------------------- messages

  /** A chunk as sent: its size line, with any extensions, and its data. */
  datatype Chunk = Chunk(sizeLine: Bytes, data: Bytes)

  datatype Message = Message(chunks: seq<Chunk>, lastLine: Bytes, trailers: seq<Bytes>)

  function RenderChunks(chunks: seq<Chunk>): Bytes {
    if chunks == [] then []
    else chunks[0].sizeLine + Crlf() + chunks[0].data + Crlf() + RenderChunks(chunks[1..])
  }

  function RenderTrailers(trailers: seq<Bytes>): Bytes {
    if trailers == [] then Crlf() else trailers[0] + Crlf() + RenderTrailers(trailers[1..])
  }

  function Render(m: Message): Bytes {
    RenderChunks(m.chunks) + m.lastLine + Crlf() + RenderTrailers(m.trailers)
  }

  function Payload(chunks: seq<Chunk>): Bytes {
    if chunks == [] then [] else chunks[0].data + Payload(chunks[1..])
  }

  /** A size line announcing `n` bytes. */
  ghost predicate SizeLine(lines: Lines, line: Bytes, n: nat) {
    NoCrlf(line) && lines.text(line) && lines.size(line) == Some(n)
  }

  ghost predicate ChunksOk(lines: Lines, chunks: seq<Chunk>) {
    forall c :: c in chunks ==> c.data != [] && SizeLine(lines, c.sizeLine, |c.data|)
  }

  /** The closing empty line is read as text as well. */
  ghost predicate TrailersOk(lines: Lines, trailers: seq<Bytes>) {
    lines.text([]) && forall t :: t in trailers ==> t != [] && NoCrlf(t) && lines.text(t)
  }

  ghost predicate MessageOk(lines: Lines, m: Message) {
    ChunksOk(lines, m.chunks) && SizeLine(lines, m.lastLine, 0) && TrailersOk(lines, m.trailers)
  }

  // ---------------------------------------------------------------- every message decodes

  lemma FindsLineEnd(line: Bytes, more: Bytes)
    requires NoCrlf(line)
    ensures FindCrlf(line + Crlf() + more) == Some(|line|)
    ensures (line + Crlf() + more)[..|line|] == line && (line + Crlf() + more)[|line| + 2..] == more
  {
    FirstCrlfUnique(line + Crlf() + more, |line|);
  }

  lemma {:induction false} TrailersAccepted(lines: Lines, trailers: seq<Bytes>)
    requires TrailersOk(lines, trailers)
    ensures Trailers(lines, RenderTrailers(trailers)) == None
  {
    if trailers == [] {
      assert FindCrlf(Crlf()) == Some(0);
    } else {
      FindsLineEnd(trailers[0], RenderTrailers(trailers[1..]));
      TrailersAccepted(lines, trailers[1..]);
    }
  }

  /** Where the parts of a rendered chunk lie. */
  lemma ChunkParts(line: Bytes, crlf: Bytes, data: Bytes, more: Bytes)
    requires |crlf| == 2
    ensures var rest := line + crlf + data + crlf + more;
      && rest == line + crlf + (data + crlf + more)
      && rest[|line| + 2..|line| + 2 + |data|] == data
      && rest[|line| + 2 + |data|..|line| + 2 + |data| + 2] == crlf
      && rest[|line| + 2 + |data| + 2..] == more
  {
  }

  /** One rendered chunk in front of more bytes, as the decoder reads it. */
  lemma FirstChunkOf(lines: Lines, rest: Bytes, c: Chunk, more: Bytes, pos: nat, have: nat)
    requires c.data != [] && SizeLine(lines, c.sizeLine, |c.data|)
    requires rest == c.sizeLine + Crlf() + c.data + Crlf() + more && pos + |rest| < USIZE_LIMIT
    ensures FirstChunk(lines, rest, pos, have)
         == if have + |c.data| > MAX_BODY_BYTES then Err(TooLarge) else Ok(DataChunk(|c.sizeLine| + 2, |c.data|))
    ensures rest[|c.sizeLine| + 2..|c.sizeLine| + 2 + |c.data|] == c.data
    ensures rest[|c.sizeLine| + 2 + |c.data| + 2..] == more
  {
    ChunkParts(c.sizeLine, Crlf(), c.data, more);
    FindsLineEnd(c.sizeLine, c.data + Crlf() + more);
  }

  lemma DecodeErr(reader: Reader, rest: Bytes, pos: nat, acc: Bytes, error: ChunkError)
    requires reader.head(rest, pos, |acc|) == Err(error)
    ensures Decode(reader, rest, pos, acc) == Err(error)
  {
  }

  lemma Reassociate(head: Bytes, middle: Bytes, tail: Bytes)
    ensures head + middle + tail == head + (middle + tail)
  {
  }

  /** What rendering a chunk list makes of its head. */
  lemma ChunksCons(chunks: seq<Chunk>, more: Bytes)
    requires chunks != []
    ensures var c, rest := chunks[0], RenderChunks(chunks[1..]) + more;
      && RenderChunks(chunks) + more == c.sizeLine + Crlf() + c.data + Crlf() + rest
      && |RenderChunks(chunks)| == |c.sizeLine| + |c.data| + 4 + |RenderChunks(chunks[1..])|
      && Payload(chunks) == c.data + Payload(chunks[1..])
  {
    var c := chunks[0];
    Reassociate(c.sizeLine + Crlf() + c.data + Crlf(), RenderChunks(chunks[1..]), more);
  }

  lemma ChunkFits(reader: Reader, lines: Lines, rest: Bytes, c: Chunk, more: Bytes, pos: nat, acc: Bytes, next: nat,
                  sum: Bytes, r: Result<Bytes, ChunkError>)
    requires ReadsLike(reader, lines)
    requires c.data != [] && SizeLine(lines, c.sizeLine, |c.data|) && |acc| + |c.data| <= MAX_BODY_BYTES
    requires rest == c.sizeLine + Crlf() + c.data + Crlf() + more && pos + |rest| < USIZE_LIMIT
    requires next == pos + |c.sizeLine| + |c.data| + 4 && sum == acc + c.data
    requires Decode(reader, more, next, sum) == r
    ensures Decode(reader, rest, pos, acc) == r
  {
    assert HeadAgrees(reader, lines, rest, pos, |acc|);
    FirstChunkOf(lines, rest, c, more, pos, |acc|);
    DecodeData(reader, rest, pos, acc, |c.sizeLine| + 2, c.data, more, next, sum, r);
  }

  lemma ChunkTooLarge(reader: Reader, lines: Lines, rest: Bytes, c: Chunk, more: Bytes, pos: nat, acc: Bytes)
    requires ReadsLike(reader, lines)
    requires c.data != [] && SizeLine(lines, c.sizeLine, |c.data|) && |acc| + |c.data| > MAX_BODY_BYTES
    requires rest == c.sizeLine + Crlf() + c.data + Crlf() + more && pos + |rest| < USIZE_LIMIT
    ensures Decode(reader, rest, pos, acc) == Err(TooLarge)
  {
    assert HeadAgrees(reader, lines, rest, pos, |acc|);
    FirstChunkOf(lines, rest, c, more, pos, |acc|);
    DecodeErr(reader, rest, pos, acc, TooLarge);
  }

  lemma {:induction false} ChunksAccepted(reader: Reader, lines: Lines, chunks: seq<Chunk>, more: Bytes, rest: Bytes,
                                          pos: nat, acc: Bytes, r: Result<Bytes, ChunkError>)
    requires ReadsLike(reader, lines)
    requires ChunksOk(lines, chunks) && |acc| <= MAX_BODY_BYTES
    requires rest == RenderChunks(chunks) + more && pos + |rest| < USIZE_LIMIT
    requires |acc| + |Payload(chunks)| > MAX_BODY_BYTES ==> r == Err(TooLarge)
    requires |acc| + |Payload(chunks)| <= MAX_BODY_BYTES ==>
      Decode(reader, more, pos + |RenderChunks(chunks)|, acc + Payload(chunks)) == r
    ensures Decode(reader, rest, pos, acc) == r
    decreases |chunks|
  {
    if chunks == [] {
      assert rest == more && acc + Payload(chunks) == acc;
    } else {
      var c, others := chunks[0], RenderChunks(chunks[1..]) + more;
      ChunksCons(chunks, more);
      if |acc + c.data| <= MAX_BODY_BYTES {
        Reassociate(acc, c.data, Payload(chunks[1..]));
        var next := pos + |c.sizeLine| + |c.data| + 4;
        ChunksAccepted(reader, lines, chunks[1..], more, others, next, acc + c.data, r);
        ChunkFits(reader, lines, rest, c, others, pos, acc, next, acc + c.data, r);
      } else {
        ChunkTooLarge(reader, lines, rest, c, others, pos, acc);
      }
    }
  }

  /** The last chunk and the trailers end the body. */
  lemma EndAccepted(reader: Reader, lines: Lines, lastLine: Bytes, trailers: seq<Bytes>, pos: nat, acc: Bytes)
    requires ReadsLike(reader, lines)
    requires SizeLine(lines, lastLine, 0) && TrailersOk(lines, trailers)
    ensures Decode(reader, lastLine + Crlf() + RenderTrailers(trailers), pos, acc) == Ok(acc)
  {
    var rest := lastLine + Crlf() + RenderTrailers(trailers);
    assert HeadAgrees(reader, lines, rest, pos, |acc|) && TrailersAgree(reader, lines, RenderTrailers(trailers));
    FindsLineEnd(lastLine, RenderTrailers(trailers));
    TrailersAccepted(lines, trailers);
  }

  /** Every rendered message decodes to its payload, or is refused as too large. */
  lemma MessageAccepted(reader: Reader, lines: Lines, m: Message)
    requires ReadsLike(reader, lines)
    requires MessageOk(lines, m) && |Render(m)| < USIZE_LIMIT
    ensures Decode(reader, Render(m), 0, [])
         == if |Payload(m.chunks)| > MAX_BODY_BYTES then Err(TooLarge) else Ok(Payload(m.chunks))
  {
    var more := m.lastLine + Crlf() + RenderTrailers(m.trailers);
    assert Render(m) == RenderChunks(m.chunks) + more;
    assert [] + Payload(m.chunks) == Payload(m.chunks);
    EndAccepted(reader, lines, m.lastLine, m.trailers, |RenderChunks(m.chunks)|, Payload(m.chunks));
    ChunksAccepted(reader, lines, m.chunks, more, Render(m), 0, [],
      if |Payload(m.chunks)| > MAX_BODY_BYTES then Err(TooLarge) else Ok(Payload(m.chunks)));
  }

  // ---------------------------------------------------------------- nothing may follow

  lemma {:induction false} TrailersThenMore(lines: Lines, trailers: seq<Bytes>, extra: Bytes)
    requires TrailersOk(lines, trailers) && extra != []
    ensures Trailers(lines, RenderTrailers(trailers) + extra) == Some(TrailingData)
  {
    if trailers == [] {
      FindsLineEnd([], extra);
      assert [] + Crlf() + extra == Crlf() + extra;
    } else {
      var more := RenderTrailers(trailers[1..]) + extra;
      assert RenderTrailers(trailers) + extra == trailers[0] + Crlf() + more;
      FindsLineEnd(trailers[0], more);
      TrailersThenMore(lines, trailers[1..], extra);
    }
  }

  lemma EndThenMore(reader: Reader, lines: Lines, lastLine: Bytes, trailers: seq<Bytes>, extra: Bytes, pos: nat,
                    acc: Bytes)
    requires ReadsLike(reader, lines)
    requires SizeLine(lines, lastLine, 0) && TrailersOk(lines, trailers) && extra != []
    ensures Decode(reader, lastLine + Crlf() + (RenderTrailers(trailers) + extra), pos, acc) == Err(TrailingData)
  {
    var rest, tail := lastLine + Crlf() + (RenderTrailers(trailers) + extra), RenderTrailers(trailers) + extra;
    assert HeadAgrees(reader, lines, rest, pos, |acc|) && TrailersAgree(reader, lines, tail);
    FindsLineEnd(lastLine, RenderTrailers(trailers) + extra);
    TrailersThenMore(lines, trailers, extra);
  }

  lemma JoinEnd(chunks: Bytes, line: Bytes, crlf: Bytes, trailers: Bytes, extra: Bytes)
    ensures chunks + line + crlf + trailers + extra == chunks + (line + crlf + (trailers + extra))
  {
  }

  /** A message followed by anything at all is refused. */
  lemma TrailingBytesRefused(reader: Reader, lines: Lines, m: Message, extra: Bytes, body: Bytes, error: ChunkError)
    requires ReadsLike(reader, lines)
    requires MessageOk(lines, m) && extra != [] && body == Render(m) + extra && |body| < USIZE_LIMIT
    requires error == if |Payload(m.chunks)| > MAX_BODY_BYTES then TooLarge else TrailingData
    ensures Decode(reader, body, 0, []) == Err(error)
  {
    var chunks, trailers, payload := RenderChunks(m.chunks), RenderTrailers(m.trailers), Payload(m.chunks);
    JoinEnd(chunks, m.lastLine, Crlf(), trailers, extra);
    EndThenMore(reader, lines, m.lastLine, m.trailers, extra, |chunks|, payload);
    assert [] + payload == payload;
    ChunksAccepted(reader, lines, m.chunks, m.lastLine + Crlf() + (trailers + extra), body, 0, [], Err(error));
  }

  // ---------------------------------------------------------------- nothing else decodes

  lemma LineSplits(rest: Bytes, e: nat)
    requires FindCrlf(rest) == Some(e)
    ensures rest == rest[..e] + Crlf() + rest[e + 2..] && NoCrlf(rest[..e])
  {
    FindsFirstCrlf(rest);
    assert rest[e..e + 2] == Crlf();
    assert rest == rest[..e] + rest[e..e + 2] + rest[e + 2..];
  }

  lemma {:induction false} TrailersExplained(lines: Lines, rest: Bytes) returns (trailers: seq<Bytes>)
    requires Trailers(lines, rest) == None
    ensures TrailersOk(lines, trailers) && rest == RenderTrailers(trailers)
    decreases |rest|
  {
    var e := FindCrlf(rest).value;
    LineSplits(rest, e);
    if e == 0 {
      trailers := [];
      assert rest == Crlf();
    } else {
      var more := TrailersExplained(lines, rest[e + 2..]);
      trailers := [rest[..e]] + more;
      assert trailers[1..] == more;
    }
  }

  /** A chunk's data, its closing CRLF and what follows. */
  lemma DataSplits(rest: Bytes, start: nat, size: nat)
    requires start + size + 2 <= |rest| && rest[start + size] == CR && rest[start + size + 1] == LF
    ensures rest[start..] == rest[start..start + size] + Crlf() + rest[start + size + 2..]
  {
    var after := rest[start..];
    assert rest[start + size..start + size + 2] == Crlf();
    assert after == after[..size] + after[size..size + 2] + after[size + 2..];
    assert after[..size] == rest[start..start + size] && after[size..size + 2] == rest[start + size..start + size + 2];
    assert after[size + 2..] == rest[start + size + 2..];
  }

  lemma JoinParts(rest: Bytes, line: Bytes, crlf: Bytes, after: Bytes, data: Bytes, more: Bytes)
    requires rest == line + crlf + after && after == data + crlf + more
    ensures rest == line + crlf + data + crlf + more
  {
  }

  lemma LastChunkExplained(lines: Lines, rest: Bytes, pos: nat, have: nat, start: nat)
    requires FirstChunk(lines, rest, pos, have) == Ok(LastChunk(start))
    ensures SizeLine(lines, rest[..start - 2], 0) && rest == rest[..start - 2] + Crlf() + rest[start..]
  {
    LineSplits(rest, FindCrlf(rest).value);
  }

  lemma DataChunkExplained(lines: Lines, rest: Bytes, pos: nat, have: nat, start: nat, size: nat)
    requires FirstChunk(lines, rest, pos, have) == Ok(DataChunk(start, size))
    ensures SizeLine(lines, rest[..start - 2], size) && have + size <= MAX_BODY_BYTES
    ensures rest == rest[..start - 2] + Crlf() + rest[start..start + size] + Crlf() + rest[start + size + 2..]
  {
    LineSplits(rest, FindCrlf(rest).value);
    DataSplits(rest, start, size);
    JoinParts(rest, rest[..start - 2], Crlf(), rest[start..], rest[start..start + size], rest[start + size + 2..]);
  }

  lemma RenderCons(c: Chunk, m: Message)
    ensures Render(m.(chunks := [c] + m.chunks)) == c.sizeLine + Crlf() + c.data + Crlf() + Render(m)
    ensures Payload([c] + m.chunks) == c.data + Payload(m.chunks)
  {
    assert ([c] + m.chunks)[1..] == m.chunks;
    var head, chunks, tail := c.sizeLine + Crlf() + c.data + Crlf(), RenderChunks(m.chunks), RenderTrailers(m.trailers);
    assert RenderChunks([c] + m.chunks) == head + chunks;
    assert head + chunks + m.lastLine + Crlf() + tail == head + (chunks + m.lastLine + Crlf() + tail);
  }

  /** A chunk in front of a message that explains the rest. */
  lemma ChunkExplained(lines: Lines, rest: Bytes, pos: nat, acc: Bytes, start: nat, size: nat, more: Message)
    returns (m: Message)
    requires FirstChunk(lines, rest, pos, |acc|) == Ok(DataChunk(start, size))
    requires MessageOk(lines, more) && rest[start + size + 2..] == Render(more)
    ensures MessageOk(lines, m) && rest == Render(m)
    ensures acc + Payload(m.chunks) == acc + rest[start..start + size] + Payload(more.chunks)
  {
    DataChunkExplained(lines, rest, pos, |acc|, start, size);
    var c := Chunk(rest[..start - 2], rest[start..start + size]);
    m := more.(chunks := [c] + more.chunks);
    RenderCons(c, more);
    Reassociate(acc, c.data, Payload(more.chunks));
  }

  /** A last chunk whose trailers end the body is a message without data. */
  lemma EndExplained(lines: Lines, rest: Bytes, pos: nat, have: nat, start: nat) returns (m: Message)
    requires FirstChunk(lines, rest, pos, have) == Ok(LastChunk(start)) && Trailers(lines, rest[start..]) == None
    ensures MessageOk(lines, m) && rest == Render(m) && m.chunks == []
  {
    LastChunkExplained(lines, rest, pos, have, start);
    var trailers := TrailersExplained(lines, rest[start..]);
    m := Message([], rest[..start - 2], trailers);
    assert [] + m.lastLine == m.lastLine;
  }

  lemma DataFits(lines: Lines, rest: Bytes, pos: nat, have: nat, start: nat, size: nat)
    requires FirstChunk(lines, rest, pos, have) == Ok(DataChunk(start, size))
    ensures have + size <= MAX_BODY_BYTES
  {
  }

  /** One step of a successful decoding. */
  lemma DecodeSteps(reader: Reader, rest: Bytes, pos: nat, acc: Bytes, d: Bytes)
    requires Decode(reader, rest, pos, acc) == Ok(d)
    ensures reader.head(rest, pos, |acc|).Ok?
    ensures match reader.head(rest, pos, |acc|).value
      case LastChunk(start) => reader.trailers(rest[start..]) == None && d == acc
      case DataChunk(start, size) =>
        Decode(reader, rest[start + size + 2..], pos + start + size + 2, acc + rest[start..start + size]) == Ok(d)
  {
  }

  /** A successful decoding exhibits the message it decoded. */
  lemma {:induction false} DecodedExplained(reader: Reader, lines: Lines, rest: Bytes, pos: nat, acc: Bytes, d: Bytes)
    returns (m: Message)
    requires ReadsLike(reader, lines)
    requires Decode(reader, rest, pos, acc) == Ok(d) && |acc| <= MAX_BODY_BYTES
    ensures MessageOk(lines, m) && rest == Render(m) && d == acc + Payload(m.chunks) && |d| <= MAX_BODY_BYTES
    decreases |rest|
  {
    DecodeSteps(reader, rest, pos, acc, d);
    assert HeadAgrees(reader, lines, rest, pos, |acc|);
    match reader.head(rest, pos, |acc|)
    case Ok(LastChunk(start)) =>
      assert TrailersAgree(reader, lines, rest[start..]);
      m := EndExplained(lines, rest, pos, |acc|, start);
    case Ok(DataChunk(start, size)) =>
      var data := rest[start..start + size];
      DataFits(lines, rest, pos, |acc|, start, size);
      var more := DecodedExplained(reader, lines, rest[start + size + 2..], pos + start + size + 2, acc + data, d);
      m := ChunkExplained(lines, rest, pos, acc, start, size, more);
  }

  /** A body decodes to `d` exactly when it is some well-formed chunked message - any split into
      non-empty chunks, any extensions, any trailers, nothing after them - with payload `d` of at most
      16 MiB. */
  lemma DecodesExactly(reader: Reader, lines: Lines, body: Bytes, d: Bytes)
    requires ReadsLike(reader, lines)
    requires |body| < USIZE_LIMIT
    ensures Decode(reader, body, 0, []) == Ok(d) <==>
      |d| <= 16 * 1024 * 1024 && exists m :: MessageOk(lines, m) && Render(m) == body && Payload(m.chunks) == d
  {
    if Decode(reader, body, 0, []) == Ok(d) {
      var m := DecodedExplained(reader, lines, body, 0, [], d);
      assert [] + Payload(m.chunks) == Payload(m.chunks);
    }
    if |d| <= MAX_BODY_BYTES && exists m :: MessageOk(lines, m) && Render(m) == body && Payload(m.chunks) == d {
      var m :| MessageOk(lines, m) && Render(m) == body && Payload(m.chunks) == d;
      MessageAccepted(reader, lines, m);
    }
  }

  // ---------------------------------------------------------------- encodings of a body

  function HexDigit(d: nat): (b: Byte)
    requires d < 16
    ensures 48 <= b <= 57 || 97 <= b <= 102
    ensures HexDigitValue(b) == Some(d)
  {
    if d < 10 then 48 + d else 87 + d
  }

  predicate HexDigits(s: Bytes) {
    forall i :: 0 <= i < |s| ==> 48 <= s[i] <= 57 || 97 <= s[i] <= 102
  }

  /** `n` in lower-case hexadecimal. */
  function HexText(n: nat): (s: Bytes)
    ensures s != [] && HexDigits(s)
  {
    if n < 16 then [HexDigit(n)] else HexText(n / 16) + [HexDigit(n % 16)]
  }

  lemma {:induction false} HexTextValue(n: nat)
    ensures HexValue(HexText(n)) == Some(n)
  {
    if n < 16 {
      assert HexText(n)[..0] == [];
    } else {
      HexTextValue(n / 16);
      assert HexText(n)[..|HexText(n)| - 1] == HexText(n / 16);
    }
  }

  /** A chunk extension: nothing, or a semicolon and text without a line break. */
  ghost predicate ExtensionOk(ext: Bytes) {
    ext == [] || (ext[0] == SEMICOLON && NoCrlf(ext) && ValidUtf8(ext))
  }

  lemma {:induction false} DropsExtension(digits: Bytes, ext: Bytes)
    requires SEMICOLON !in digits && ExtensionOk(ext)
    ensures BeforeSemicolon(digits + ext) == digits
  {
    if digits == [] {
      assert digits + ext == ext;
    } else {
      assert (digits + ext)[1..] == digits[1..] + ext;
      DropsExtension(digits[1..], ext);
    }
  }

  predicate AllAscii(s: Bytes) {
    forall i :: 0 <= i < |s| ==> s[i] < 0x80
  }

  /** One ASCII byte in front of text. */
  lemma AsciiByteThenText(s: Bytes)
    requires s != [] && s[0] < 0x80 && ValidUtf8(s[1..])
    ensures ValidUtf8(s)
  {
    assert SequenceLength(s) == 1;
  }

  lemma {:induction false} AsciiThenText(ascii: Bytes, text: Bytes, whole: Bytes)
    requires AllAscii(ascii) && ValidUtf8(text) && whole == ascii + text
    ensures ValidUtf8(whole)
    decreases |ascii|
  {
    if ascii == [] {
      assert whole == text;
    } else {
      var n := |ascii| - 1;
      var more := [ascii[n]] + text;
      assert more[1..] == text;
      AsciiByteThenText(more);
      assert whole == ascii[..n] + more;
      AsciiThenText(ascii[..n], more, whole);
    }
  }

  /** Digits are read as they stand: there is no white space to trim and no sign. */
  lemma DigitsRead(digits: Bytes, n: nat)
    requires digits != [] && HexDigits(digits)
    requires HexValue(digits) == Some(n) && n < USIZE_LIMIT
    ensures ParseHex(TrimEnd(TrimStart(digits))) == Some(n)
  {
    assert TrimStart(digits) == digits;
    assert TrimEnd(digits) == digits;
  }

  lemma DigitsThenExtension(digits: Bytes, ext: Bytes)
    requires HexDigits(digits) && ExtensionOk(ext)
    ensures NoCrlf(digits + ext)
  {
    var line := digits + ext;
    forall i | 0 <= i < |line| - 1 ensures !(line[i] == CR && line[i + 1] == LF) {
      if i >= |digits| {
        assert line[i] == ext[i - |digits|] && line[i + 1] == ext[i + 1 - |digits|];
      } else {
        assert line[i] == digits[i];
      }
    }
  }

  lemma SizeRead(digits: Bytes, ext: Bytes, line: Bytes, n: nat)
    requires BeforeSemicolon(line) == digits && ParseHex(TrimEnd(TrimStart(digits))) == Some(n)
    ensures ParseSize(line) == Some(n)
  {
  }

  /** The decoder reads the size back from hexadecimal digits and any extension. */
  lemma SizeLineReads(n: nat, ext: Bytes)
    requires n < USIZE_LIMIT && ExtensionOk(ext)
    ensures SizeLine(GatewayLines(), HexText(n) + ext, n)
  {
    var digits, line := HexText(n), HexText(n) + ext;
    assert ParseSize(line) == Some(n) by {
      HexTextValue(n);
      DropsExtension(digits, ext);
      DigitsRead(digits, n);
      SizeRead(digits, ext, line, n);
    }
    assert ValidUtf8(line) by {
      AsciiThenText(digits, ext, line);
    }
    DigitsThenExtension(digits, ext);
  }

  /** A piece of the body and the extension sent with it. */
  datatype Part = Part(data: Bytes, ext: Bytes)

  function Join(parts: seq<Part>): Bytes {
    if parts == [] then [] else parts[0].data + Join(parts[1..])
  }

  function Encode(parts: seq<Part>): seq<Chunk> {
    if parts == [] then []
    else [Chunk(HexText(|parts[0].data|) + parts[0].ext, parts[0].data)] + Encode(parts[1..])
  }

  lemma {:induction false} EncodeOk(parts: seq<Part>)
    requires forall p :: p in parts ==> p.data != [] && ExtensionOk(p.ext)
    requires |Join(parts)| < USIZE_LIMIT
    ensures ChunksOk(GatewayLines(), Encode(parts)) && Payload(Encode(parts)) == Join(parts)
  {
    if parts != [] {
      SizeLineReads(|parts[0].data|, parts[0].ext);
      EncodeOk(parts[1..]);
      assert Encode(parts)[1..] == Encode(parts[1..]);
    }
  }

  /** However a body of at most 16 MiB is split into non-empty parts, whatever extensions and trailers
      go with them, decoding the encoding returns the body. */
  lemma EveryEncodingDecodes(parts: seq<Part>, lastExt: Bytes, trailers: seq<Bytes>)
    requires (forall p :: p in parts ==> p.data != [] && ExtensionOk(p.ext)) && ExtensionOk(lastExt)
    requires TrailersOk(GatewayLines(), trailers) && |Join(parts)| <= MAX_BODY_BYTES
    requires |Render(Message(Encode(parts), HexText(0) + lastExt, trailers))| < USIZE_LIMIT
    ensures Decode(GatewayReader(), Render(Message(Encode(parts), HexText(0) + lastExt, trailers)), 0, [])
         == Ok(Join(parts))
  {
    EncodeOk(parts);
    SizeLineReads(0, lastExt);
    GatewayReads();
    MessageAccepted(GatewayReader(), GatewayLines(), Message(Encode(parts), HexText(0) + lastExt, trailers));
  }

  /** A body sent as one chunk, written out byte for byte, decodes to that body up to 16 MiB and is
      refused beyond. */
  lemma OneChunkDecodes(data: Bytes)
    requires data != [] && |HexText(|data|)| + |data| + 9 < USIZE_LIMIT
    ensures Decode(GatewayReader(), HexText(|data|) + [13, 10] + data + [13, 10] + [48, 13, 10, 13, 10], 0, [])
         == if |data| > 16 * 1024 * 1024 then Err(TooLarge) else Ok(data)
  {
    var m := Message([Chunk(HexText(|data|), data)], HexText(0), []);
    SizeLineReads(|data|, []);
    SizeLineReads(0, []);
    assert HexText(|data|) + [] == HexText(|data|) && HexText(0) + [] == HexText(0) == [48];
    OneChunkText(m.chunks[0], data);
    GatewayReads();
    MessageAccepted(GatewayReader(), GatewayLines(), m);
  }

  lemma OneChunkText(c: Chunk, data: Bytes)
    requires c.data == data
    ensures Payload([c]) == data
    ensures Render(Message([c], [48], [])) == c.sizeLine + [13, 10] + data + [13, 10] + [48, 13, 10, 13, 10]
  {
    assert [c][1..] == [];
    assert Payload([c]) == data + Payload([]);
    assert RenderChunks([c]) == c.sizeLine + Crlf() + data + Crlf() + RenderChunks([]);
    assert RenderTrailers([]) == Crlf();
  }
}
