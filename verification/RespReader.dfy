/**
 Reading from a socket, chunk by chunk.  How many bytes have arrived when the
 client looks is up to the network; what is read does not depend on it.
 */
module RespReader {
  import opened Resp

  datatype Result<+T> = Success(value: T) | Failure(error: Error)

  /** A read that gives what parsing the stream gives, and leaves the rest of the stream unread. */
  predicate Agrees<T(==)>(p: Parsed<T>, r: Result<T>, unread: Bytes) {
    match p
    case Ok(value, rest) => r == Result.Success(value) && unread == rest
    case Err(e) => r == Result.Failure(e)
  }

  class Socket {
    /** All bytes the peer will still send before it closes the connection. */
    var incoming: Bytes
    /** How many of them have arrived. */
    var arrived: nat

    ghost predicate Valid()
      reads this
    {
      arrived <= |incoming|
    }

    constructor (stream: Bytes)
      ensures Valid() && incoming == stream
    {
      incoming, arrived := stream, 0;
    }

    /** What the peer sends in answer joins what it has sent before. */
    method Answered(bytes: Bytes)
      requires Valid()
      modifies this`incoming
      ensures Valid() && incoming == old(incoming) + bytes
    {
      incoming := incoming + bytes;
    }

    /** Wait until something has arrived; more may arrive at any time. */
    method Wait()
      requires Valid() && incoming != []
      modifies this`arrived
      ensures Valid() && arrived > 0 && arrived >= old(arrived)
    {
      var now: nat;
      if arrived > 0 {
        now :| arrived <= now <= |incoming|;
      } else {
        now :| 0 < now <= |incoming|;
      }
      arrived := now;
    }

    /** `recv`, at most n bytes, which a peek leaves in place. */
    method RecvOrThrow(n: nat, peek: bool) returns (r: Result<Bytes>)
      requires Valid() && n > 0
      modifies this
      ensures Valid()
      ensures old(incoming) == [] ==> r == Result.Failure(ConnectionClosed) && incoming == []
      ensures old(incoming) != [] ==>
                && r.Success? && 0 < |r.value| <= n && |r.value| <= |old(incoming)|
                && r.value == old(incoming)[..|r.value|]
                && (old(arrived) >= n ==> |r.value| == n)
                && incoming == if peek then old(incoming) else old(incoming)[|r.value|..]
      ensures peek && r.Success? ==> arrived >= |r.value|
    {
      if incoming == [] {
        return Result.Failure(ConnectionClosed);
      }
      Wait();
      var k := if n <= arrived then n else arrived;
      r := Result.Success(incoming[..k]);
      if !peek {
        incoming, arrived := incoming[k..], arrived - k;
      }
    }
  }

  /** Read exactly n bytes, however they arrive. */
  method ReadNBytes(socket: Socket, n: nat) returns (r: Result<Bytes>)
    requires socket.Valid()
    modifies socket
    ensures socket.Valid() && Agrees(ReadN(old(socket.incoming), n), r, socket.incoming)
  {
    var buffer: Bytes := [];
    while |buffer| != n
      invariant socket.Valid() && |buffer| <= n
      invariant old(socket.incoming) == buffer + socket.incoming
      decreases n - |buffer|
    {
      ghost var before := socket.incoming;
      var received := socket.RecvOrThrow(n - |buffer|, false);
      if received.Failure? {
        return Result.Failure(received.error);
      }
      assert before == received.value + socket.incoming;
      assert buffer + (received.value + socket.incoming) == buffer + received.value + socket.incoming;
      buffer := buffer + received.value;
    }
    r := Result.Success(buffer);
  }

  const BUFFER_SIZE := 64

  /** Peek at what has arrived, and take it up to and including the first line feed. */
  method TakeChunk(socket: Socket) returns (chunk: Result<Bytes>, foundDelimiter: bool)
    requires socket.Valid()
    modifies socket
    ensures socket.Valid()
    ensures chunk.Failure? ==> old(socket.incoming) == [] && chunk.error == ConnectionClosed
    ensures chunk.Success? ==>
              && chunk.value != [] && old(socket.incoming) == chunk.value + socket.incoming
              && LF !in chunk.value[..|chunk.value| - 1] && (foundDelimiter <==> chunk.value[|chunk.value| - 1] == LF)
  {
    var buffer := socket.RecvOrThrow(BUFFER_SIZE, true);
    if buffer.Failure? {
      return buffer, false;
    }
    var eol := BeforeLF(buffer.value);
    foundDelimiter := eol < |buffer.value|;
    var toRead := if foundDelimiter then eol + 1 else |buffer.value|;
    chunk := Result.Success(buffer.value[..toRead]);
    var taken := socket.RecvOrThrow(toRead, false);
  }

  /** Read up to and including the next line feed, peeking at 64 bytes at a time. */
  method ReadOneLine(socket: Socket) returns (r: Result<Bytes>)
    requires socket.Valid()
    modifies socket
    ensures socket.Valid() && Agrees(ReadLine(old(socket.incoming)), r, socket.incoming)
  {
    hide TrimEnd, BeforeLF;
    var line: Bytes := [];
    var foundDelimiter := false;
    ghost var input := socket.incoming;
    while !foundDelimiter
      invariant socket.Valid() && input == line + socket.incoming
      invariant !foundDelimiter ==> LF !in line
      invariant foundDelimiter ==> line != [] && line[|line| - 1] == LF && LF !in line[..|line| - 1]
      decreases |socket.incoming|, !foundDelimiter
    {
      var chunk, found := TakeChunk(socket);
      if chunk.Failure? {
        NoLineFeed(input);
        return chunk;
      }
      ChunkAppended(line, chunk.value, socket.incoming);
      line, foundDelimiter := line + chunk.value, found;
    }
    LineFeedAt(input, |line| - 1);
    r := Result.Success(TrimEnd(line));
  }

  lemma ChunkAppended(line: Bytes, chunk: Bytes, rest: Bytes)
    requires LF !in line && chunk != [] && LF !in chunk[..|chunk| - 1]
    ensures line + (chunk + rest) == line + chunk + rest
    ensures (line + chunk)[|line + chunk| - 1] == chunk[|chunk| - 1]
    ensures LF !in (line + chunk)[..|line + chunk| - 1]
    ensures chunk[|chunk| - 1] != LF ==> LF !in line + chunk
  {
    assert (line + chunk)[..|line + chunk| - 1] == line + chunk[..|chunk| - 1];
    assert chunk == chunk[..|chunk| - 1] + [chunk[|chunk| - 1]];
  }

  lemma {:induction false} NoLineFeed(s: Bytes)
    requires LF !in s
    ensures BeforeLF(s) == |s|
  {
    if s == [] {
    } else {
      NoLineFeed(s[1..]);
    }
  }

  lemma LineFeedAt(s: Bytes, k: nat)
    requires k < |s| && s[k] == LF && LF !in s[..k]
    ensures BeforeLF(s) == k
  {
    BeforeLFAppend(s[..k], s[k..]);
    assert s[..k] + s[k..] == s;
  }

  method RecvHeader(socket: Socket, prefix: byte) returns (r: Result<int>)
    requires socket.Valid()
    modifies socket
    ensures socket.Valid() && Agrees(ReadHeader(old(socket.incoming), prefix), r, socket.incoming)
  {
    hide ReadLine, ParseInt;
    var line := ReadOneLine(socket);
    if line.Failure? {
      return Result.Failure(line.error);
    }
    if line.value == [] || line.value[0] != prefix {
      return Result.Failure(ProtocolError);
    }
    match ParseInt(line.value[1..]) {
      case NaN => return Result.Failure(BadNumber);
      case Int(n) => return Result.Success(n);
    }
  }

  method RecvBulkReply(socket: Socket) returns (r: Result<Bytes>)
    requires socket.Valid()
    modifies socket
    ensures socket.Valid() && Agrees(ReadBulk(old(socket.incoming)), r, socket.incoming)
  {
    hide ReadHeader;
    var length := RecvHeader(socket, DOLLAR);
    if length.Failure? {
      return Result.Failure(length.error);
    }
    if length.value == -1 {
      return Result.Success(MISSING_VALUE);
    }
    if length.value < -2 || length.value + 2 > MAX_INT {
      return Result.Failure(BadLength);
    }
    var data := ReadNBytes(socket, length.value + 2);
    if data.Failure? {
      return Result.Failure(data.error);
    }
    if data.value == [] {
      return Result.Failure(ProtocolError);
    }
    r := Result.Success(data.value[..|data.value| - 2]);
  }

  method RecvMultiBulkReply(socket: Socket) returns (r: Result<seq<Bytes>>)
    requires socket.Valid()
    modifies socket
    ensures socket.Valid() && Agrees(ReadArray(old(socket.incoming)), r, socket.incoming)
  {
    hide ReadHeader, ReadBulk;
    var length := RecvHeader(socket, STAR);
    if length.Failure? {
      return Result.Failure(length.error);
    }
    if length.value == -1 {
      return Result.Failure(NoSuchKey);
    }
    if length.value < -1 {
      return Result.Failure(BadLength);
    }
    var out: seq<Bytes> := [];
    ghost var start := socket.incoming;
    var i := 0;
    PrependNothing(ReadBulks(start, length.value));
    while i < length.value
      invariant 0 <= i <= length.value && socket.Valid()
      invariant ReadBulks(start, length.value) == Prepend(out, ReadBulks(socket.incoming, length.value - i))
    {
      ghost var before := socket.incoming;
      var value := RecvBulkReply(socket);
      if value.Failure? {
        return Result.Failure(value.error);
      }
      PrependOne(out, value.value, ReadBulks(socket.incoming, length.value - i - 1));
      out := out + [value.value];
      i := i + 1;
    }
    assert out + [] == out;
    r := Result.Success(out);
  }

  function Prepend(a: seq<Bytes>, p: Parsed<seq<Bytes>>): Parsed<seq<Bytes>> {
    match p
    case Ok(b, rest) => Ok(a + b, rest)
    case Err(e) => Err(e)
  }

  lemma PrependNothing(p: Parsed<seq<Bytes>>)
    ensures Prepend([], p) == p
  {
    if p.Ok? {
      assert [] + p.value == p.value;
    }
  }

  lemma PrependOne(a: seq<Bytes>, x: Bytes, p: Parsed<seq<Bytes>>)
    ensures Prepend(a, Prepend([x], p)) == Prepend(a + [x], p)
  {
    if p.Ok? {
      assert a + ([x] + p.value) == a + [x] + p.value;
    }
  }

  /** A reply of any kind, by a look at its first byte. */
  method RecvGenericReply(socket: Socket) returns (r: Result<Reply>)
    requires socket.Valid()
    modifies socket
    ensures socket.Valid() && Agrees(ReadReply(old(socket.incoming)), r, socket.incoming)
  {
    hide ReadLine, ReadHeader, ReadBulk, ReadArray;
    var first := socket.RecvOrThrow(1, true);
    if first.Failure? {
      return Result.Failure(first.error);
    }
    var prefix := first.value[0];
    if prefix == PLUS || prefix == MINUS {
      var line := ReadOneLine(socket);
      if line.Failure? {
        return Result.Failure(line.error);
      }
      if prefix == PLUS {
        if line.value == [] {
          return Result.Failure(ProtocolError);
        }
        return Result.Success(Status(line.value[1..]));
      }
      if |line.value| < 5 {
        return Result.Failure(ProtocolError);
      }
      return Result.Success(Reply.Failure(line.value[5..]));
    } else if prefix == COLON {
      var n := RecvHeader(socket, COLON);
      if n.Failure? {
        return Result.Failure(n.error);
      }
      return Result.Success(Number(ToInt32(n.value)));
    } else if prefix == DOLLAR {
      var value := RecvBulkReply(socket);
      if value.Failure? {
        return Result.Failure(value.error);
      }
      return Result.Success(Bulk(value.value));
    } else if prefix == STAR {
      var values := RecvMultiBulkReply(socket);
      if values.Failure? {
        return Result.Failure(values.error);
      }
      return Result.Success(Array(Bulks(values.value)));
    }
    return Result.Failure(ProtocolError);
  }

  /** A command as the client prints it. */
  method PrintCommand(lines: seq<Bytes>) returns (s: Bytes)
    ensures s == PrintArray(lines)
  {
    s := PrintHeader(STAR, |lines|);
    for i := 0 to |lines|
      invariant PrintArray(lines) == s + PrintBulks(lines[i..])
    {
      assert lines[i..][0] == lines[i] && lines[i..][1..] == lines[i + 1..];
      s := s + PrintHeader(DOLLAR, |lines[i]|);
      s := s + lines[i] + CRLF;
    }
    assert lines[|lines|..] == [];
  }
}
