/**
 How the C++ listener reads a request off a socket: the header byte by byte up to the first blank
 line, then a body of the announced length in whatever pieces recv delivers.
 */
module RequestReader {
  import opened Wrappers

  /** The longest header buffer the reader keeps reading for. */
  const HEADER_LIMIT: nat := 16384

  /** A connected peer: the bytes it sends before the connection ends, and how many were received. */
  class Socket {
    const data: string
    var pos: nat

    ghost predicate Valid()
      reads this
    {
      pos <= |data|
    }

    ghost function Unread(): string
      reads this
      requires Valid()
    {
      data[pos..]
    }

    constructor (data: string)
      ensures Valid() && Unread() == data
    {
      this.data, pos := data, 0;
    }

    /** recv: at least one and at most `max` of the unread bytes, or none at the end or on an error. */
    method Recv(max: nat) returns (chunk: string)
      requires Valid() && 0 < max
      modifies this`pos
      ensures Valid() && |chunk| <= max
      ensures old(Unread()) == chunk + Unread()
      ensures chunk == "" ==> old(Unread()) == ""
    {
      if pos == |data| { return ""; }
      var n: nat :| 0 < n <= max && n <= |data| - pos;
      chunk := data[pos..pos + n];
      pos := pos + n;
    }
  }

  const BLANK_LINE: string := "\r\n\r\n"

  predicate EndsHeader(s: string) {
    |s| >= 4 && s[|s| - 4..] == BLANK_LINE
  }

  /** No prefix shorter than n ends in a blank line. */
  ghost predicate NoneBefore(s: string, n: nat) {
    forall m | 0 <= m < n && m <= |s| :: !EndsHeader(s[..m])
  }

  /** The length of the shortest prefix that ends in a blank line. */
  ghost predicate IsHeaderLength(s: string, n: nat) {
    n <= |s| && EndsHeader(s[..n]) && NoneBefore(s, n)
  }

  /**
   The header is the shortest prefix of the stream that ends in CR LF CR LF.  It is given up when
   the stream ends first, and when it is longer than one byte past the limit.
   */
  method ReadHeader(socket: Socket) returns (header: Option<string>)
    requires socket.Valid()
    modifies socket`pos
    ensures socket.Valid()
    ensures header.Some? ==>
              && |header.value| <= 16385
              && IsHeaderLength(old(socket.Unread()), |header.value|)
              && old(socket.Unread()) == header.value + socket.Unread()
    ensures header.None? ==> forall n | 0 <= n <= 16385 :: !IsHeaderLength(old(socket.Unread()), n)
  {
    hide EndsHeader, NoneBefore, IsHeaderLength;
    ghost var stream := socket.Unread();
    var headerBuf := "";
    EmptyPrefix(stream);
    while true
      invariant socket.Valid() && stream == headerBuf + socket.Unread()
      invariant |headerBuf| <= HEADER_LIMIT
      invariant NoneBefore(stream, |headerBuf| + 1)
      decreases HEADER_LIMIT - |headerBuf|
    {
      var chunk := socket.Recv(1);
      ghost var before := headerBuf;
      NoHeaderWithin(stream, |before| + 1);
      if chunk == "" {
        assert |stream| == |before|;
        return None;
      }
      headerBuf := headerBuf + chunk;
      assert stream[..|headerBuf|] == headerBuf;
      EndsCheck(headerBuf);
      if |headerBuf| >= 4 && headerBuf[|headerBuf| - 4..] == BLANK_LINE {
        HeaderFound(stream, headerBuf);
        return Some(headerBuf);
      }
      ExtendNone(stream, |headerBuf|);
      NoHeaderWithin(stream, |headerBuf| + 1);
      if |headerBuf| > HEADER_LIMIT { return None; }
    }
  }

  /** CR LF CR LF at a place. */
  predicate BreaksAt(s: string, i: nat) {
    i + 4 <= |s| && s[i] == '\r' && s[i + 1] == '\n' && s[i + 2] == '\r' && s[i + 3] == '\n'
  }

  /** A header ends behind the first CR LF CR LF. */
  lemma HeaderMeaning(s: string, n: nat)
    ensures IsHeaderLength(s, n) <==>
            4 <= n && BreaksAt(s, n - 4) && forall i: nat | i < n - 4 :: !BreaksAt(s, i)
  {
    hide IsHeaderLength, EndsHeader, BreaksAt;
    forall m: nat | m <= |s| ensures EndsHeader(s[..m]) <==> m >= 4 && BreaksAt(s, m - 4) {
      BreakEnds(s, m);
    }
    ByBreaks(s, n);
  }

  lemma BreakEnds(s: string, m: nat)
    requires m <= |s|
    ensures EndsHeader(s[..m]) <==> m >= 4 && BreaksAt(s, m - 4)
  {
    if m >= 4 {
      var t := s[..m][m - 4..];
      assert |t| == 4 && t[0] == s[m - 4] && t[1] == s[m - 3] && t[2] == s[m - 2] && t[3] == s[m - 1];
      assert BLANK_LINE == ['\r', '\n', '\r', '\n'];
    }
  }

  lemma ByBreaks(s: string, n: nat)
    requires forall m: nat | m <= |s| :: EndsHeader(s[..m]) <==> m >= 4 && BreaksAt(s, m - 4)
    ensures IsHeaderLength(s, n) <==>
            4 <= n && BreaksAt(s, n - 4) && forall i: nat | i < n - 4 :: !BreaksAt(s, i)
  {
    hide EndsHeader;
    if IsHeaderLength(s, n) {
      forall i: nat | i < n - 4 ensures !BreaksAt(s, i) {
        assert EndsHeader(s[..i + 4]) <==> BreaksAt(s, i + 4 - 4);
      }
    }
    if 4 <= n && BreaksAt(s, n - 4) && forall i: nat | i < n - 4 :: !BreaksAt(s, i) {
      forall m | 0 <= m < n && m <= |s| ensures !EndsHeader(s[..m]) {
        assert m >= 4 ==> !BreaksAt(s, m - 4);
      }
    }
  }

  lemma EmptyPrefix(stream: string)
    ensures NoneBefore(stream, 1)
  {
  }

  lemma EndsCheck(s: string)
    ensures EndsHeader(s) <==> |s| >= 4 && s[|s| - 4..] == BLANK_LINE
  {
  }

  lemma HeaderFound(stream: string, header: string)
    requires NoneBefore(stream, |header|) && header <= stream && EndsHeader(header)
    ensures IsHeaderLength(stream, |header|)
  {
  }

  lemma ExtendNone(stream: string, n: nat)
    requires NoneBefore(stream, n) && n <= |stream| && !EndsHeader(stream[..n])
    ensures NoneBefore(stream, n + 1)
  {
  }

  lemma NoHeaderWithin(stream: string, n: nat)
    requires NoneBefore(stream, n)
    ensures forall m | 0 <= m < n :: !IsHeaderLength(stream, m)
    ensures |stream| < n ==> forall m :: !IsHeaderLength(stream, m)
  {
  }

  function Zeros(n: nat): (z: string)
    ensures |z| == n && forall k | 0 <= k < n :: z[k] == 0 as char
  {
    seq(n, k => 0 as char)
  }

  /** What the body of a request with this length is: the next bytes, or all there are and zeros. */
  function Body(stream: string, contentLength: nat): string {
    if contentLength <= |stream| then stream[..contentLength]
    else stream + Zeros(contentLength - |stream|)
  }

  method ReadBody(socket: Socket, contentLength: nat) returns (body: array<char>)
    requires socket.Valid()
    modifies socket`pos
    ensures socket.Valid() && fresh(body)
    ensures body[..] == Body(old(socket.Unread()), contentLength)
    ensures body.Length == contentLength
    ensures forall k | 0 <= k < contentLength ::
              body[k] == if k < |old(socket.Unread())| then old(socket.Unread())[k] else '\0'
    ensures contentLength <= |old(socket.Unread())| ==> socket.Unread() == old(socket.Unread())[contentLength..]
  {
    ghost var stream := socket.Unread();
    body := new char[contentLength](_ => 0 as char);
    var readSoFar := 0;
    while readSoFar < contentLength
      invariant socket.Valid() && readSoFar <= contentLength
      invariant readSoFar <= |stream| && socket.Unread() == stream[readSoFar..]
      invariant body[..readSoFar] == stream[..readSoFar]
      invariant forall k | readSoFar <= k < contentLength :: body[k] == 0 as char
      decreases contentLength - readSoFar
    {
      var chunk := socket.Recv(contentLength - readSoFar);
      if chunk == "" { break; }
      ghost var start := body[..readSoFar];
      forall k | 0 <= k < |chunk| {
        body[readSoFar + k] := chunk[k];
      }
      assert body[..readSoFar] == start;
      assert body[..readSoFar + |chunk|] == start + chunk;
      assert stream[..readSoFar + |chunk|] == stream[..readSoFar] + chunk;
      readSoFar := readSoFar + |chunk|;
    }
    assert body[..] == body[..readSoFar] + body[readSoFar..];
    BodyMeaning(stream, contentLength);
    assert forall k | 0 <= k < contentLength :: body[k] == body[..][k];
  }

  lemma BodyMeaning(stream: string, contentLength: nat)
    ensures |Body(stream, contentLength)| == contentLength
    ensures forall k | 0 <= k < contentLength ::
              Body(stream, contentLength)[k] == if k < |stream| then stream[k] else '\0'
  {
  }

  // ----- One request -----

  /** What the request line and headers say: a poll, a delivery with its Content-Length, or another method. */
  datatype Head = Get | Post(contentLength: nat) | Other

  datatype Request = Dropped | Polled | Refused | Posted(header: string, body: string)

  /** A stream that starts with this header, found within the limit. */
  ghost predicate StartsWith(stream: string, header: string, tail: string) {
    stream == header + tail && |header| <= 16385 && IsHeaderLength(header, |header|)
  }

  /** A delivery followed by anything else. */
  ghost predicate Framed(stream: string, parse: string -> Head, header: string, body: string, rest: string) {
    StartsWith(stream, header, body + rest) && parse(header) == Post(|body|)
  }

  /** A stream starts with one header at most. */
  lemma HeaderUnique(stream: string, header: string, tail: string, n: nat)
    requires stream == header + tail && IsHeaderLength(header, |header|)
    ensures IsHeaderLength(stream, |header|)
    ensures IsHeaderLength(stream, n) ==> n == |header|
  {
    assert stream[..|header|] == header == header[..|header|];
    assert forall m | 0 <= m < |header| :: stream[..m] == header[..m];
    hide EndsHeader;
  }

  lemma BodyOf(body: string, rest: string)
    ensures Body(body + rest, |body|) == body && (body + rest)[|body|..] == rest
  {
  }

  /**
   Header, then body: header, body and what follows are cut apart where they were joined, however
   recv splits them, and nothing beyond the request is consumed.
   */
  method ReadRequest(socket: Socket, parse: string -> Head) returns (request: Request)
    requires socket.Valid()
    modifies socket`pos
    ensures socket.Valid()
    ensures forall header, body, rest | Framed(old(socket.Unread()), parse, header, body, rest) ::
              request == Posted(header, body) && socket.Unread() == rest
    ensures forall header, tail | StartsWith(old(socket.Unread()), header, tail) ::
              match parse(header)
              case Get => request == Polled && socket.Unread() == tail
              case Other => request == Refused && socket.Unread() == tail
              case Post(n) => request == Posted(header, Body(tail, n))
    ensures request.Dropped? <==> forall n | 0 <= n <= 16385 :: !IsHeaderLength(old(socket.Unread()), n)
  {
    hide EndsHeader, IsHeaderLength;
    ghost var stream := socket.Unread();
    var found := ReadHeader(socket);
    forall header, tail | StartsWith(stream, header, tail)
      ensures found == Some(header) && socket.Unread() == tail
    {
      HeaderUnique(stream, header, tail, if found.Some? then |found.value| else 0);
      if found.Some? {
        assert stream[..|header|] == header && stream[|header|..] == tail;
        assert stream[..|header|] == found.value && stream[|header|..] == socket.Unread();
      }
    }
    if found.None? { return Dropped; }
    var head := parse(found.value);
    if head.Get? { return Polled; }
    if head.Other? { return Refused; }
    var body := ReadBody(socket, head.contentLength);
    forall header, sent, rest | Framed(stream, parse, header, sent, rest)
      ensures found == Some(header) && body[..] == sent && socket.Unread() == rest
    {
      assert StartsWith(stream, header, sent + rest);
      BodyOf(sent, rest);
    }
    return Posted(found.value, body[..]);
  }
}
