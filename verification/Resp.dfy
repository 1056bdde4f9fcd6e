/**
 The Redis wire format (the "Arrays" and "Bulk strings" sections of the RESP
 specification): what the client prints, what it reads from a stream of bytes,
 and that reading gives back what was printed.
 */
module Resp {
  type byte = x: int | 0 <= x < 256
  type Bytes = seq<byte>

  const LF: byte := 10
  const CR: byte := 13
  const DOLLAR: byte := 36
  const STAR: byte := 42
  const PLUS: byte := 43
  const MINUS: byte := 45
  const DIGIT0: byte := 48
  const COLON: byte := 58
  const CRLF: Bytes := [CR, LF]

  /** Bounds of the 64-bit integers in which lengths are read. */
  const MAX_INT := 0x7fff_ffff_ffff_ffff

  // ---------------------------------------------------------------- printing

  function Decimal(n: nat): (s: Bytes)
    ensures s != []
  {
    if n < 10 then [DIGIT0 + n] else Decimal(n / 10) + [DIGIT0 + n % 10]
  }

  function PrintHeader(prefix: byte, n: nat): Bytes {
    [prefix] + Decimal(n) + CRLF
  }

  function PrintBulk(arg: Bytes): Bytes {
    PrintHeader(DOLLAR, |arg|) + arg + CRLF
  }

  function PrintBulks(args: seq<Bytes>): Bytes {
    if args == [] then [] else PrintBulk(args[0]) + PrintBulks(args[1..])
  }

  function PrintArray(args: seq<Bytes>): Bytes {
    PrintHeader(STAR, |args|) + PrintBulks(args)
  }

  // ----------------------------------------------------------------- reading

  datatype Error = ConnectionClosed | ProtocolError | BadNumber | BadLength | NoSuchKey

  /** The outcome of reading: a value and what follows it in the stream. */
  datatype Parsed<+T> = Ok(value: T, rest: Bytes) | Err(error: Error)

  /** What a missing value is read as. */
  const MISSING_VALUE: Bytes :=
    [42, 42, 110, 111, 110, 101, 120, 105, 115, 116, 101, 110, 116, 45, 107, 101, 121, 42, 42]

  /** Number of bytes before the first line feed, or all of them. */
  function BeforeLF(s: Bytes): (k: nat)
    ensures k <= |s| && LF !in s[..k] && (k < |s| ==> s[k] == LF)
  {
    if s == [] || s[0] == LF then 0 else 1 + BeforeLF(s[1..])
  }

  function TrimEnd(s: Bytes): Bytes {
    if s != [] && (s[|s| - 1] == CR || s[|s| - 1] == LF) then TrimEnd(s[..|s| - 1]) else s
  }

  function ReadLine(input: Bytes): Parsed<Bytes> {
    var k := BeforeLF(input);
    if k == |input| then Err(ConnectionClosed) else Ok(TrimEnd(input[..k + 1]), input[k + 1..])
  }

  datatype Numeral = NaN | Int(n: int)

  function ParseDigits(s: Bytes): Numeral {
    if s == [] || !(DIGIT0 <= s[|s| - 1] < DIGIT0 + 10) then NaN
    else if |s| == 1 then Int(s[0] - DIGIT0)
    else match ParseDigits(s[..|s| - 1])
      case NaN => NaN
      case Int(n) => Int(10 * n + (s[|s| - 1] - DIGIT0))
  }

  /** A signed decimal number of 64 bits. */
  function ParseInt(s: Bytes): Numeral {
    var signed := s != [] && (s[0] == MINUS || s[0] == PLUS);
    match ParseDigits(if signed then s[1..] else s)
    case NaN => NaN
    case Int(n) =>
      var v := if signed && s[0] == MINUS then -n else n;
      if -MAX_INT - 1 <= v <= MAX_INT then Int(v) else NaN
  }

  /** A line with a prefix and a number. */
  function ReadHeader(input: Bytes, prefix: byte): Parsed<int> {
    match ReadLine(input)
    case Err(e) => Err(e)
    case Ok(line, rest) =>
      if line == [] || line[0] != prefix then Err(ProtocolError)
      else match ParseInt(line[1..])
        case NaN => Err(BadNumber)
        case Int(n) => Ok(n, rest)
  }

  function ReadN(input: Bytes, n: nat): Parsed<Bytes> {
    if |input| < n then Err(ConnectionClosed) else Ok(input[..n], input[n..])
  }

  function ReadBulk(input: Bytes): Parsed<Bytes> {
    match ReadHeader(input, DOLLAR)
    case Err(e) => Err(e)
    case Ok(length, rest) =>
      if length == -1 then Ok(MISSING_VALUE, rest)
      else if length < -2 || length + 2 > MAX_INT then Err(BadLength)
      else if length == -2 then Err(ProtocolError)
      else match ReadN(rest, length + 2)
        case Err(e) => Err(e)
        case Ok(data, after) => Ok(data[..length], after)
  }

  function ReadBulks(input: Bytes, count: nat): Parsed<seq<Bytes>> {
    if count == 0 then Ok([], input)
    else match ReadBulk(input)
      case Err(e) => Err(e)
      case Ok(first, rest) =>
        match ReadBulks(rest, count - 1)
        case Err(e) => Err(e)
        case Ok(others, after) => Ok([first] + others, after)
  }

  function ReadArray(input: Bytes): Parsed<seq<Bytes>> {
    match ReadHeader(input, STAR)
    case Err(e) => Err(e)
    case Ok(length, rest) =>
      if length == -1 then Err(NoSuchKey)
      else if length < -1 then Err(BadLength)
      else ReadBulks(rest, length)
  }

  // -------------------------------------------------------------- round trip

  predicate IsDigits(s: Bytes) {
    forall i :: 0 <= i < |s| ==> DIGIT0 <= s[i] < DIGIT0 + 10
  }

  lemma {:induction false} ParseDecimal(n: nat)
    ensures ParseDigits(Decimal(n)) == Int(n) && IsDigits(Decimal(n))
  {
    if n < 10 {
    } else {
      ParseDecimal(n / 10);
      assert Decimal(n)[..|Decimal(n)| - 1] == Decimal(n / 10);
    }
  }

  lemma {:induction false} BeforeLFAppend(a: Bytes, b: Bytes)
    requires LF !in a && b != [] && b[0] == LF
    ensures BeforeLF(a + b) == |a|
  {
    if a == [] {
      assert a + b == b;
    } else {
      assert (a + b)[1..] == a[1..] + b;
      BeforeLFAppend(a[1..], b);
    }
  }

  lemma TrimCRLF(s: Bytes)
    requires s != [] && s[|s| - 1] != CR && s[|s| - 1] != LF
    ensures TrimEnd(s + CRLF) == s
  {
    assert (s + CRLF)[..|s| + 1] == s + [CR];
    assert (s + [CR])[..|s|] == s;
    assert TrimEnd(s + CRLF) == TrimEnd(s + [CR]) == TrimEnd(s);
  }

  /** A printed header is read back, with whatever follows it. */
  lemma HeaderRoundTrip(prefix: byte, n: nat, rest: Bytes)
    requires prefix != LF && prefix != CR
    ensures ReadHeader(PrintHeader(prefix, n) + rest, prefix) == if n <= MAX_INT then Ok(n, rest) else Err(BadNumber)
  {
    hide Decimal, TrimEnd, ParseDigits, BeforeLF;
    ParseDecimal(n);
    var line := [prefix] + Decimal(n);
    var input := PrintHeader(prefix, n) + rest;
    assert input == (line + [CR]) + ([LF] + rest);
    BeforeLFAppend(line + [CR], [LF] + rest);
    assert input[..|line| + 2] == line + CRLF;
    TrimCRLF(line);
    assert input[|line| + 2..] == rest;
    assert line[1..] == Decimal(n);
  }

  /** The client can read back an argument whose length, with the line end, fits the 64-bit length. */
  predicate FitsBulk(arg: Bytes) {
    |arg| + 2 <= MAX_INT
  }

  lemma BulkRoundTrip(arg: Bytes, rest: Bytes)
    ensures if FitsBulk(arg) then ReadBulk(PrintBulk(arg) + rest) == Ok(arg, rest)
            else ReadBulk(PrintBulk(arg) + rest).Err?
  {
    hide ReadHeader, PrintHeader;
    HeaderRoundTrip(DOLLAR, |arg|, arg + CRLF + rest);
    assert PrintBulk(arg) + rest == PrintHeader(DOLLAR, |arg|) + (arg + CRLF + rest);
    assert (arg + CRLF + rest)[..|arg| + 2][..|arg|] == arg;
    assert (arg + CRLF + rest)[|arg| + 2..] == rest;
  }

  predicate FitsAll(args: seq<Bytes>) {
    args == [] || (FitsBulk(args[0]) && FitsAll(args[1..]))
  }

  lemma {:induction false} BulksRoundTrip(args: seq<Bytes>, rest: Bytes)
    ensures if FitsAll(args) then ReadBulks(PrintBulks(args) + rest, |args|) == Ok(args, rest)
            else ReadBulks(PrintBulks(args) + rest, |args|).Err?
  {
    hide ReadBulk, PrintBulk;
    if args == [] {
      assert PrintBulks(args) + rest == rest;
    } else {
      BulkRoundTrip(args[0], PrintBulks(args[1..]) + rest);
      assert PrintBulks(args) + rest == PrintBulk(args[0]) + (PrintBulks(args[1..]) + rest);
      BulksRoundTrip(args[1..], rest);
      assert [args[0]] + args[1..] == args;
    }
  }

  /**
   Reading what was printed gives exactly the arguments, whatever bytes they
   hold, and consumes exactly what was printed, if and only if the count and
   all lengths fit the 64-bit integers in which they are read.
   */
  lemma ArrayRoundTrip(args: seq<Bytes>, rest: Bytes)
    ensures if |args| <= MAX_INT && FitsAll(args) then ReadArray(PrintArray(args) + rest) == Ok(args, rest)
            else ReadArray(PrintArray(args) + rest).Err?
  {
    hide ReadHeader, PrintHeader, ReadBulks, PrintBulks, FitsAll;
    HeaderRoundTrip(STAR, |args|, PrintBulks(args) + rest);
    assert PrintArray(args) + rest == PrintHeader(STAR, |args|) + (PrintBulks(args) + rest);
    BulksRoundTrip(args, rest);
  }

  lemma ReadHeaderAdvances(input: Bytes, prefix: byte)
    ensures var p := ReadHeader(input, prefix); p.Ok? ==> |p.rest| < |input|
  {
  }

  lemma {:induction false} ReadBulksAdvances(input: Bytes, count: nat)
    ensures var p := ReadBulks(input, count); p.Ok? ==> |p.rest| <= |input|
    decreases count
  {
    hide ReadHeader;
    if count == 0 {
    } else {
      ReadHeaderAdvances(input, DOLLAR);
      var first := ReadBulk(input);
      if first.Ok? {
        ReadBulksAdvances(first.rest, count - 1);
      }
    }
  }

  /** Reading an array always uses up part of the stream. */
  lemma ReadArrayAdvances(input: Bytes)
    ensures var p := ReadArray(input); p.Ok? ==> |p.rest| < |input|
  {
    hide ReadHeader, ReadBulks;
    ReadHeaderAdvances(input, STAR);
    var header := ReadHeader(input, STAR);
    if header.Ok? && header.value >= 0 {
      ReadBulksAdvances(header.rest, header.value);
    }
  }

  // ------------------------------------------------------ replies of any kind

  /** A reply as a server means it; the text of a failure is all that follows the minus sign. */
  datatype Reply = Status(text: Bytes) | Failure(text: Bytes) | Number(n: int) | Bulk(value: Bytes) | Null
                 | Array(values: seq<Reply>) | NullArray

  /** A pipelined command keeps an integer reply in 32 bits. */
  function ToInt32(n: int): int {
    (n + 0x8000_0000) % 0x1_0000_0000 - 0x8000_0000
  }

  /** The reply to a command, by the kind its first byte announces; an error loses the five bytes of its prefix. */
  function ReadReply(input: Bytes): Parsed<Reply> {
    if input == [] then Err(ConnectionClosed)
    else if input[0] == PLUS then
      match ReadLine(input)
      case Err(e) => Err(e)
      case Ok(line, rest) => if line == [] then Err(ProtocolError) else Ok(Status(line[1..]), rest)
    else if input[0] == MINUS then
      match ReadLine(input)
      case Err(e) => Err(e)
      case Ok(line, rest) => if |line| < 5 then Err(ProtocolError) else Ok(Failure(line[5..]), rest)
    else if input[0] == COLON then
      match ReadHeader(input, COLON)
      case Err(e) => Err(e)
      case Ok(n, rest) => Ok(Number(ToInt32(n)), rest)
    else if input[0] == DOLLAR then
      match ReadBulk(input)
      case Err(e) => Err(e)
      case Ok(value, rest) => Ok(Bulk(value), rest)
    else if input[0] == STAR then
      match ReadArray(input)
      case Err(e) => Err(e)
      case Ok(values, rest) => Ok(Array(Bulks(values)), rest)
    else Err(ProtocolError)
  }

  /** The client knows only byte strings inside an array. */
  function Bulks(values: seq<Bytes>): seq<Reply> {
    seq(|values|, i requires 0 <= i < |values| => Bulk(values[i]))
  }

  /** The word the client takes every error to begin with, and the space after it. */
  const ERROR_WORD: Bytes := [69, 82, 82, 32]

  function DecimalInt(n: int): Bytes {
    if n < 0 then [MINUS] + Decimal(-n) else Decimal(n)
  }

  function PrintNumber(prefix: byte, n: int): Bytes {
    [prefix] + DecimalInt(n) + CRLF
  }

  /** What a server sends for a reply. */
  function PrintReply(r: Reply): Bytes
    decreases r
  {
    match r
    case Status(text) => [PLUS] + text + CRLF
    case Failure(text) => [MINUS] + text + CRLF
    case Number(n) => PrintNumber(COLON, n)
    case Bulk(value) => PrintBulk(value)
    case Null => PrintNumber(DOLLAR, -1)
    case Array(values) => PrintHeader(STAR, |values|) + PrintReplies(values)
    case NullArray => PrintNumber(STAR, -1)
  }

  function PrintReplies(rs: seq<Reply>): Bytes
    decreases rs
  {
    if rs == [] then [] else PrintReply(rs[0]) + PrintReplies(rs[1..])
  }

  /** What stands for an element of an array: its bytes, or the stand-in for a missing value. */
  function ElementValue(e: Reply): Bytes {
    if e.Bulk? then e.value else MISSING_VALUE
  }

  function ElementValues(es: seq<Reply>): seq<Bytes> {
    seq(|es|, i requires 0 <= i < |es| => ElementValue(es[i]))
  }

  /** An element that an array of byte strings can hold. */
  predicate IsElement(e: Reply) {
    e.Null? || (e.Bulk? && FitsBulk(e.value))
  }

  predicate AllElements(es: seq<Reply>) {
    forall i :: 0 <= i < |es| ==> IsElement(es[i])
  }

  /**
   What a command should be handed: the message of a plain error, the stand-in
   for a missing value, also inside an array, otherwise the reply itself.
   */
  function Delivered(r: Reply): Reply {
    match r
    case Failure(text) => if ERROR_WORD <= text then Failure(text[|ERROR_WORD|..]) else r
    case Null => Bulk(MISSING_VALUE)
    case Array(values) => if AllElements(values) then Array(Bulks(ElementValues(values))) else r
    case _ => r
  }

  /** A text that survives as one line. */
  predicate OneLine(text: Bytes) {
    LF !in text && (text == [] || text[|text| - 1] != CR)
  }

  predicate Readable(r: Reply) {
    match r
    case Status(text) => OneLine(text)
    case Failure(text) => OneLine(text) && ERROR_WORD <= text
    case Number(n) => -0x8000_0000 <= n < 0x8000_0000
    case Bulk(value) => FitsBulk(value)
    case Null => true
    case Array(values) => |values| <= MAX_INT && AllElements(values)
    case NullArray => false
  }

  lemma {:induction false} TrimIsShorter(s: Bytes)
    ensures |TrimEnd(s)| <= |s|
    ensures s != [] && (s[|s| - 1] == CR || s[|s| - 1] == LF) ==> |TrimEnd(s)| < |s|
  {
    if s == [] {
    } else {
      TrimIsShorter(s[..|s| - 1]);
    }
  }

  /** A line comes back whole if it is one line; otherwise less of it comes back. */
  lemma LineRoundTrip(line: Bytes, rest: Bytes)
    requires line != []
    ensures var p := ReadLine(line + CRLF + rest);
            if OneLine(line) then p == Ok(line, rest) else p.Ok? && |p.value| < |line|
  {
    hide BeforeLF, TrimEnd;
    var input := line + CRLF + rest;
    if LF in line {
      var k := BeforeLF(line);
      FirstLF(line, k);
      assert input == line[..k] + (line[k..] + CRLF + rest);
      BeforeLFAppend(line[..k], line[k..] + CRLF + rest);
      TrimIsShorter(input[..k + 1]);
    } else {
      assert input == (line + [CR]) + ([LF] + rest);
      BeforeLFAppend(line + [CR], [LF] + rest);
      assert input[..|line| + 2] == line + CRLF;
      assert input[|line| + 2..] == rest;
      if line[|line| - 1] == CR {
        TrimOfCRLF(line);
        TrimIsShorter(line);
      } else {
        TrimCRLF(line);
      }
    }
  }

  lemma FirstLF(s: Bytes, k: nat)
    requires LF in s && k == BeforeLF(s)
    ensures k < |s|
  {
    assert s[..|s|] == s;
  }

  lemma TrimOfCRLF(s: Bytes)
    ensures TrimEnd(s + CRLF) == TrimEnd(s)
  {
    assert (s + CRLF)[..|s| + 1] == s + [CR];
    assert (s + [CR])[..|s|] == s;
    assert TrimEnd(s + CRLF) == TrimEnd(s + [CR]) == TrimEnd(s);
  }

  predicate Fits64(n: int) {
    -MAX_INT - 1 <= n <= MAX_INT
  }

  lemma ParseDecimalInt(n: int)
    ensures ParseInt(DecimalInt(n)) == if Fits64(n) then Int(n) else NaN
    ensures DecimalInt(n) != [] && OneLine(DecimalInt(n))
  {
    hide Decimal, ParseDigits;
    var m := if n < 0 then -n else n;
    ParseDecimal(m);
    assert ([MINUS] + Decimal(m))[1..] == Decimal(m);
  }

  lemma NumberRoundTrip(prefix: byte, n: int, rest: Bytes)
    requires prefix != LF && prefix != CR
    ensures ReadHeader(PrintNumber(prefix, n) + rest, prefix) == if Fits64(n) then Ok(n, rest) else Err(BadNumber)
  {
    hide DecimalInt, ParseInt, ReadLine;
    var line := [prefix] + DecimalInt(n);
    ParseDecimalInt(n);
    LineRoundTrip(line, rest);
    assert line[1..] == DecimalInt(n);
  }

  lemma StatusRoundTrip(text: Bytes, rest: Bytes)
    ensures var p := ReadReply([PLUS] + text + CRLF + rest);
            if OneLine(text) then p == Ok(Status(text), rest) else p.Err? || p.value != Status(text)
  {
    hide ReadLine, ReadHeader, ReadBulk, ReadArray;
    var line := [PLUS] + text;
    LineRoundTrip(line, rest);
    assert line[1..] == text;
    assert OneLine(line) == OneLine(text);
  }

  /** Five bytes of an error are dropped: right for the client's own error word, wrong for every other. */
  lemma FailureRoundTrip(text: Bytes, rest: Bytes)
    ensures var p, own := ReadReply([MINUS] + text + CRLF + rest), Delivered(Failure(text));
            if Readable(Failure(text)) then p == Ok(own, rest) else p.Err? || p.value != own
    ensures OneLine(text) && |text| >= 4 ==> ReadReply([MINUS] + text + CRLF + rest) == Ok(Failure(text[4..]), rest)
  {
    hide ReadLine, ReadHeader, ReadBulk, ReadArray;
    var line := [MINUS] + text;
    LineRoundTrip(line, rest);
    assert OneLine(line) == OneLine(text);
    assert |text| >= 4 ==> line[5..] == text[4..];
  }

  lemma {:induction false} TrimIsPrefix(s: Bytes)
    ensures TrimEnd(s) <= s
  {
    if s == [] {
    } else {
      TrimIsPrefix(s[..|s| - 1]);
    }
  }

  lemma WrongPrefix(input: Bytes, prefix: byte)
    requires input != [] && input[0] != prefix
    ensures ReadHeader(input, prefix).Err?
  {
    hide TrimEnd, BeforeLF, ParseInt;
    TrimIsPrefix(input[..if BeforeLF(input) < |input| then BeforeLF(input) + 1 else 0]);
  }

  /** What a server sends begins with the mark of its kind. */
  lemma ReplyPrefix(r: Reply)
    ensures PrintReply(r) != []
    ensures PrintReply(r)[0] == match r
                                case Status(_) => PLUS
                                case Failure(_) => MINUS
                                case Number(_) => COLON
                                case Bulk(_) => DOLLAR
                                case Null => DOLLAR
                                case Array(_) => STAR
                                case NullArray => STAR
  {
    hide Decimal, DecimalInt;
  }

  /** An element is read back exactly if an array of byte strings can hold it. */
  lemma ElementRoundTrip(e: Reply, rest: Bytes)
    ensures var p := ReadBulk(PrintReply(e) + rest);
            if IsElement(e) then p == Ok(ElementValue(e), rest) else p.Err?
  {
    hide ReadHeader, PrintHeader, PrintNumber;
    ReplyPrefix(e);
    if e.Bulk? {
      BulkRoundTrip(e.value, rest);
    } else if e.Null? {
      NumberRoundTrip(DOLLAR, -1, rest);
    } else {
      WrongPrefix(PrintReply(e) + rest, DOLLAR);
    }
  }

  lemma {:induction false} ElementsRoundTrip(es: seq<Reply>, rest: Bytes)
    ensures var p := ReadBulks(PrintReplies(es) + rest, |es|);
            if AllElements(es) then p == Ok(ElementValues(es), rest) else p.Err?
  {
    hide ReadBulk, PrintReply, IsElement, ElementValue;
    if es == [] {
      assert PrintReplies(es) + rest == rest;
    } else {
      ElementRoundTrip(es[0], PrintReplies(es[1..]) + rest);
      assert PrintReplies(es) + rest == PrintReply(es[0]) + (PrintReplies(es[1..]) + rest);
      ElementsRoundTrip(es[1..], rest);
      assert ElementValues(es) == [ElementValue(es[0])] + ElementValues(es[1..]);
      assert AllElements(es) <==> IsElement(es[0]) && AllElements(es[1..]) by {
        assert forall i :: 1 <= i < |es| ==> es[i] == es[1..][i - 1];
      }
    }
  }

  /** An array of any replies is read back exactly if it holds nothing but byte strings and missing values. */
  lemma ReplyArrayRoundTrip(es: seq<Reply>, rest: Bytes)
    ensures var p := ReadArray(PrintReply(Array(es)) + rest);
            if |es| <= MAX_INT && AllElements(es) then p == Ok(ElementValues(es), rest) else p.Err?
  {
    hide ReadHeader, PrintHeader, ReadBulks, PrintReplies, AllElements;
    HeaderRoundTrip(STAR, |es|, PrintReplies(es) + rest);
    assert PrintReply(Array(es)) + rest == PrintHeader(STAR, |es|) + (PrintReplies(es) + rest);
    ElementsRoundTrip(es, rest);
  }

  /**
   A reply is read back as what its command should be handed, with whatever
   follows it left in the stream, if and only if it is readable; otherwise
   reading fails or gives something else.
   */
  lemma ReplyRoundTrip(r: Reply, rest: Bytes)
    ensures PrintReply(r) != []
    ensures ReadReply(PrintReply(r) + rest) == Ok(Delivered(r), rest) <==> Readable(r)
    ensures !Readable(r) ==> var p := ReadReply(PrintReply(r) + rest); p.Err? || p.value != Delivered(r)
  {
    hide ReadLine, ReadHeader, DecimalInt, ReadBulks, AllElements, FitsBulk, OneLine;
    match r
    case Status(text) => StatusRoundTrip(text, rest);
    case Failure(text) => FailureRoundTrip(text, rest);
    case Number(n) => NumberRoundTrip(COLON, n, rest);
    case Bulk(value) => BulkRoundTrip(value, rest);
    case Null => NumberRoundTrip(DOLLAR, -1, rest);
    case Array(values) => ReplyArrayRoundTrip(values, rest);
    case NullArray => NumberRoundTrip(STAR, -1, rest);
  }

  /** Any 64-bit integer is read, but what a command is handed has wrapped to 32 bits. */
  lemma IntegerWraps(n: int, rest: Bytes)
    requires Fits64(n)
    ensures var p := ReadReply(PrintReply(Number(n)) + rest);
            && p.Ok? && p.rest == rest && p.value.Number?
            && -0x8000_0000 <= p.value.n < 0x8000_0000 && (p.value.n - n) % 0x1_0000_0000 == 0
  {
    hide ReadHeader, DecimalInt;
    NumberRoundTrip(COLON, n, rest);
  }

  /** 2^31 arrives as -2^31, and of the error "-MOVED 1" there arrives "D 1". */
  lemma SomeRepliesAreMisread(rest: Bytes)
    ensures ReadReply(PrintReply(Number(0x8000_0000)) + rest) == Ok(Number(-0x8000_0000), rest)
    ensures ReadReply(PrintReply(Failure([77, 79, 86, 69, 68, 32, 49])) + rest) == Ok(Failure([68, 32, 49]), rest)
  {
    hide ReadReply, PrintNumber, PrintBulk, PrintArray;
    IntegerWraps(0x8000_0000, rest);
    FailureRoundTrip([77, 79, 86, 69, 68, 32, 49], rest);
    assert [77, 79, 86, 69, 68, 32, 49][4..] == [68, 32, 49];
  }

  /** How negative lengths are read: -1 as a missing value, or a missing array, and all others as errors. */
  lemma NegativeLengths(n: int, rest: Bytes)
    requires Fits64(n) && n < 0
    ensures ReadBulk(PrintNumber(DOLLAR, n) + rest)
            == if n == -1 then Ok(MISSING_VALUE, rest) else if n == -2 then Err(ProtocolError) else Err(BadLength)
    ensures ReadArray(PrintNumber(STAR, n) + rest) == if n == -1 then Err(NoSuchKey) else Err(BadLength)
  {
    hide ReadHeader, PrintNumber;
    NumberRoundTrip(DOLLAR, n, rest);
    NumberRoundTrip(STAR, n, rest);
  }

  /** A stream that ends inside a header. */
  lemma HeaderCut(prefix: byte, n: nat, k: nat)
    requires prefix != LF && prefix != CR && k < |PrintHeader(prefix, n)|
    ensures ReadHeader(PrintHeader(prefix, n)[..k], prefix) == Err(ConnectionClosed)
  {
    hide Decimal, TrimEnd, ParseInt;
    ParseDecimal(n);
    var cut := PrintHeader(prefix, n)[..k];
    assert PrintHeader(prefix, n) == ([prefix] + Decimal(n) + [CR]) + [LF];
    assert cut == ([prefix] + Decimal(n) + [CR])[..k];
    assert LF !in cut;
    NoLF(cut);
  }

  lemma NoLF(s: Bytes)
    requires LF !in s
    ensures BeforeLF(s) == |s|
  {
    assert forall i :: 0 <= i < |s| ==> s[i] != LF;
  }

  /** A stream that ends inside a printed byte string fails for that reason. */
  lemma BulkCut(arg: Bytes, k: nat)
    requires FitsBulk(arg) && k < |PrintBulk(arg)|
    ensures ReadBulk(PrintBulk(arg)[..k]) == Err(ConnectionClosed)
  {
    hide ReadHeader, PrintHeader;
    var header := PrintHeader(DOLLAR, |arg|);
    assert PrintBulk(arg) == header + (arg + CRLF);
    if k < |header| {
      HeaderCut(DOLLAR, |arg|, k);
      assert PrintBulk(arg)[..k] == header[..k];
    } else {
      var rest := (arg + CRLF)[..k - |header|];
      HeaderRoundTrip(DOLLAR, |arg|, rest);
      assert PrintBulk(arg)[..k] == header + rest;
    }
  }

  lemma {:induction false} BulksCut(args: seq<Bytes>, k: nat)
    requires FitsAll(args) && k < |PrintBulks(args)|
    ensures ReadBulks(PrintBulks(args)[..k], |args|) == Err(ConnectionClosed)
  {
    hide ReadBulk, PrintBulk;
    var first, others := PrintBulk(args[0]), PrintBulks(args[1..]);
    assert PrintBulks(args) == first + others;
    if k < |first| {
      BulkCut(args[0], k);
      assert PrintBulks(args)[..k] == first[..k];
    } else {
      BulkRoundTrip(args[0], others[..k - |first|]);
      assert PrintBulks(args)[..k] == first + others[..k - |first|];
      BulksCut(args[1..], k - |first|);
    }
  }

  /** A stream that ends anywhere inside a printed command fails because the connection is closed. */
  lemma ArrayCut(args: seq<Bytes>, k: nat)
    requires |args| <= MAX_INT && FitsAll(args) && k < |PrintArray(args)|
    ensures ReadArray(PrintArray(args)[..k]) == Err(ConnectionClosed)
  {
    hide ReadHeader, PrintHeader, ReadBulks, PrintBulks, FitsAll;
    var header, bulks := PrintHeader(STAR, |args|), PrintBulks(args);
    assert PrintArray(args) == header + bulks;
    if k < |header| {
      HeaderCut(STAR, |args|, k);
      assert PrintArray(args)[..k] == header[..k];
    } else {
      HeaderRoundTrip(STAR, |args|, bulks[..k - |header|]);
      assert PrintArray(args)[..k] == header + bulks[..k - |header|];
      BulksCut(args, k - |header|);
    }
  }

  // ------------------------------------------------------------ literal bytes

  /** The letters of a text as bytes. */
  function Ascii(text: string): Bytes
    requires forall i :: 0 <= i < |text| ==> text[i] as int < 256
  {
    seq(|text|, i requires 0 <= i < |text| => text[i] as byte)
  }

  /** The digits of a number: none but '0' to '9', no leading zero, and worth the number. */
  lemma {:induction false} DecimalDigits(n: nat)
    ensures var s := Decimal(n);
            && (forall i :: 0 <= i < |s| ==> '0' as int <= s[i] <= '9' as int)
            && (n >= 10 ==> s[0] != '0' as int)
            && s[|s| - 1] == '0' as int + n % 10
            && (n >= 10 ==> s[..|s| - 1] == Decimal(n / 10))
  {
    if n >= 10 {
      DecimalDigits(n / 10);
      assert Decimal(n)[0] == Decimal(n / 10)[0];
    }
  }

  /** A header with one digit: the prefix, the digit, carriage return and line feed. */
  lemma HeaderBytes(prefix: byte, n: nat)
    requires n < 10
    ensures PrintHeader(prefix, n) == [prefix, 48 + n, 13, 10]
  {
  }

  /** A command on the wire, byte for byte: "GET k" is "*2", "$3", "GET", "$1" and "k", each with its line end. */
  lemma CommandBytes()
    ensures PrintArray([]) == [42, 48, 13, 10]
    ensures PrintArray([[71, 69, 84], [107]])
            == [42, 50, 13, 10] + [36, 51, 13, 10, 71, 69, 84, 13, 10] + [36, 49, 13, 10, 107, 13, 10]
  {
    hide PrintHeader;
    var get: Bytes, k: Bytes := [71, 69, 84], [107];
    HeaderBytes(STAR, 0);
    HeaderBytes(STAR, 2);
    HeaderBytes(DOLLAR, 3);
    HeaderBytes(DOLLAR, 1);
    assert [get, k][1..] == [k];
    assert PrintBulk(get) == [36, 51, 13, 10, 71, 69, 84, 13, 10];
    assert PrintBulk(k) == [36, 49, 13, 10, 107, 13, 10];
    assert PrintBulks([k]) == PrintBulk(k);
  }

  /** What stands for a missing value, and the word an error begins with. */
  lemma FixedTexts()
    ensures MISSING_VALUE == Ascii("**nonexistent-key**")
    ensures ERROR_WORD == Ascii("ERR ")
  {
    assert MISSING_VALUE == Ascii("**nonexistent-key**");
  }

  /** Replies of each kind, byte for byte. */
  lemma ReplyBytes()
    ensures PrintReply(Status([79, 75])) == [43, 79, 75, 13, 10]
    ensures PrintReply(Failure([69, 82, 82, 32, 120])) == [45, 69, 82, 82, 32, 120, 13, 10]
    ensures PrintReply(Number(-105)) == [58, 45, 49, 48, 53, 13, 10]
    ensures PrintReply(Bulk([97, 98])) == [36, 50, 13, 10, 97, 98, 13, 10]
    ensures PrintReply(Null) == [36, 45, 49, 13, 10]
    ensures PrintReply(NullArray) == [42, 45, 49, 13, 10]
    ensures PrintReply(Array([Null])) == [42, 49, 13, 10, 36, 45, 49, 13, 10]
  {
    hide PrintHeader;
    HeaderBytes(DOLLAR, 2);
    HeaderBytes(STAR, 1);
    assert DecimalInt(-1) == [45, 49];
    assert DecimalInt(-105) == [45] + (([49] + [48]) + [53]) by {
      assert Decimal(105) == Decimal(10) + [53];
    }
    assert PrintReplies([Null]) == PrintReply(Null);
  }
}
