/** RTSP request framing (section 4.4 of RFC 2326) over a byte stream. */
module Rtsp {
  import opened Numbers

  type Bytes = seq<byte>

  const LF: byte := 0x0A
  const CR: byte := 0x0D
  const SPACE: byte := 0x20
  const COLON: byte := 0x3A
  const CRLF: Bytes := [0x0D, 0x0A]
  const RTSP_PREFIX: Bytes := [0x52, 0x54, 0x53, 0x50, 0x2F]
  const VERSION: Bytes := RTSP_PREFIX + [0x31, 0x2E, 0x30]
  const CONTENT_LENGTH: Bytes :=
    [0x43, 0x6F, 0x6E, 0x74, 0x65, 0x6E, 0x74, 0x2D, 0x4C, 0x65, 0x6E, 0x67, 0x74, 0x68]

  const MAX_HEADERS: nat := 128
  const MAX_BODY: nat := 8 * 1024 * 1024

  datatype Header = Header(name: Bytes, value: Bytes)

  datatype Request = Request(method_: Bytes, uri: Bytes, headers: seq<Header>, body: Bytes)

  datatype Error = BadData | UnexpectedEof

  /** Reading one request: the stream is over, the connection must be dropped, or
      a request was read and `rest` is what follows it. */
  datatype Outcome = EndOfStream | Failed(error: Error) | Message(request: Request, rest: Bytes)

  /** Lines must be valid UTF-8; the check itself is a library's. */
  type Utf8 = Bytes -> bool

  // ----- Lines -----

  /** Up to and including the first line feed, or all there is. */
  function RawLine(data: Bytes): (line: Bytes)
    ensures |line| <= |data| && line == data[..|line|]
    ensures data != [] ==> line != []
  {
    if data == [] then []
    else if data[0] == LF then [LF]
    else [data[0]] + RawLine(data[1..])
  }

  function Chomp(line: Bytes): Bytes {
    if line != [] && (line[|line| - 1] == LF || line[|line| - 1] == CR) then Chomp(line[..|line| - 1]) else line
  }

  datatype Line = NoLine | NotText | Text(line: Bytes, rest: Bytes)

  function ReadLine(utf8: Utf8, data: Bytes): (r: Line)
    ensures r.Text? ==> |r.rest| < |data|
  {
    var raw := RawLine(data);
    if raw == [] then NoLine
    else if !utf8(raw) then NotText
    else Text(Chomp(raw), data[|raw|..])
  }

  // ----- Pieces of a line -----

  datatype Pair = Pair(before: Bytes, after: Bytes)

  function SplitOnce(s: Bytes, separator: byte): Option<Pair> {
    if s == [] then None
    else if s[0] == separator then Some(Pair([], s[1..]))
    else match SplitOnce(s[1..], separator)
      case None => None
      case Some(p) => Some(Pair([s[0]] + p.before, p.after))
  }

  predicate IsSpace(b: byte) {
    0x09 <= b <= 0x0D || b == SPACE
  }

  function TrimStart(s: Bytes): Bytes {
    if s != [] && IsSpace(s[0]) then TrimStart(s[1..]) else s
  }

  function TrimEnd(s: Bytes): Bytes {
    if s != [] && IsSpace(s[|s| - 1]) then TrimEnd(s[..|s| - 1]) else s
  }

  function Trim(s: Bytes): Bytes {
    TrimEnd(TrimStart(s))
  }

  function Lower(b: byte): byte {
    if 0x41 <= b <= 0x5A then b + 0x20 else b
  }

  predicate SameName(a: Bytes, b: Bytes) {
    |a| == |b| && forall i :: 0 <= i < |a| ==> Lower(a[i]) == Lower(b[i])
  }

  /** The first header of a name, whatever its case. */
  function Get(headers: seq<Header>, name: Bytes): Option<Bytes> {
    if headers == [] then None
    else if SameName(headers[0].name, name) then Some(headers[0].value)
    else Get(headers[1..], name)
  }

  /** A decimal `usize`: an optional plus sign, then digits, within 64 bits. */
  function ParseSize(s: Bytes): Option<nat> {
    var digits := if s != [] && s[0] == 0x2B then s[1..] else s;
    if digits == [] then None
    else match Digits(digits)
      case Some(n) => if n < 0x1_0000_0000_0000_0000 then Some(n) else None
      case None => None
  }

  function Digits(s: Bytes): Option<nat> {
    if s == [] then Some(0)
    else
      var d := s[|s| - 1];
      match Digits(s[..|s| - 1])
      case Some(n) => if 0x30 <= d <= 0x39 then Some(10 * n + (d - 0x30)) else None
      case None => None
  }

  // ----- A request -----

  datatype Start = Start(method_: Bytes, uri: Bytes)

  function RequestLine(line: Bytes): Option<Start> {
    match SplitOnce(line, SPACE)
    case None => None
    case Some(first) =>
      match SplitOnce(first.after, SPACE)
      case None => None
      case Some(second) =>
        if first.before != [] && RTSP_PREFIX <= second.after then Some(Start(first.before, second.before)) else None
  }

  datatype Block = BadBlock | Block(headers: seq<Header>, rest: Bytes)

  function ReadHeaders(utf8: Utf8, data: Bytes, headers: seq<Header>): Block
    decreases |data|
  {
    match ReadLine(utf8, data)
    case NoLine => BadBlock
    case NotText => BadBlock
    case Text(line, rest) =>
      if line == [] then Block(headers, rest)
      else if |headers| >= MAX_HEADERS then BadBlock
      else match SplitOnce(line, COLON)
        case None => BadBlock
        case Some(p) => ReadHeaders(utf8, rest, headers + [Header(Trim(p.before), Trim(p.after))])
  }

  function ReadBody(start: Start, headers: seq<Header>, data: Bytes): Outcome {
    match Get(headers, CONTENT_LENGTH)
    case None => Message(Request(start.method_, start.uri, headers, []), data)
    case Some(value) =>
      match ParseSize(value)
      case None => Failed(BadData)
      case Some(n) =>
        if n > MAX_BODY then Failed(BadData)
        else if n > |data| then Failed(UnexpectedEof)
        else Message(Request(start.method_, start.uri, headers, data[..n]), data[n..])
  }

  function ReadRequest(utf8: Utf8, data: Bytes): Outcome {
    match ReadLine(utf8, data)
    case NoLine => EndOfStream
    case NotText => Failed(BadData)
    case Text(line, rest) =>
      if line == [] then EndOfStream
      else match RequestLine(line)
        case None => Failed(BadData)
        case Some(start) =>
          match ReadHeaders(utf8, rest, [])
          case BadBlock => Failed(BadData)
          case Block(headers, after) => ReadBody(start, headers, after)
  }

  /** The connection's buffered reader. */
  class Reader {
    const input: Bytes
    var pos: nat

    ghost predicate Repr()
      reads this
    {
      pos <= |input|
    }

    function Remaining(): Bytes
      requires Repr()
      reads this
    {
      input[pos..]
    }

    constructor (input: Bytes)
      ensures Repr() && Remaining() == input
    {
      this.input := input;
      pos := 0;
    }

    /** `None` at the end of the stream; `ok` is false for a line that is not text. */
    method NextLine(utf8: Utf8) returns (line: Option<Bytes>, ok: bool)
      requires Repr()
      modifies this
      ensures Repr()
      ensures match ReadLine(utf8, old(Remaining()))
              case NoLine => ok && line == None
              case NotText => !ok
              case Text(text, rest) => ok && line == Some(text) && Remaining() == rest
    {
      var raw := RawLine(input[pos..]);
      ghost var before := input[pos..];
      pos := pos + |raw|;
      assert input[pos..] == before[|raw|..];
      if raw == [] {
        return None, true;
      }
      if !utf8(raw) {
        return None, false;
      }
      while raw != [] && (raw[|raw| - 1] == LF || raw[|raw| - 1] == CR)
        invariant Chomp(raw) == Chomp(RawLine(before))
        decreases |raw|
      {
        raw := raw[..|raw| - 1];
      }
      return Some(raw), true;
    }

    method NextHeaders(utf8: Utf8) returns (headers: Option<seq<Header>>)
      requires Repr()
      modifies this
      ensures Repr()
      ensures match ReadHeaders(utf8, old(Remaining()), [])
              case BadBlock => headers == None
              case Block(hs, rest) => headers == Some(hs) && Remaining() == rest
    {
      var read: seq<Header> := [];
      while true
        invariant Repr()
        invariant ReadHeaders(utf8, old(Remaining()), []) == ReadHeaders(utf8, Remaining(), read)
        decreases |Remaining()|
      {
        var line, ok := NextLine(utf8);
        if !ok || line == None {
          return None;
        }
        if line.value == [] {
          return Some(read);
        }
        if |read| >= MAX_HEADERS {
          return None;
        }
        var pair := SplitOnce(line.value, COLON);
        if pair == None {
          return None;
        }
        read := read + [Header(Trim(pair.value.before), Trim(pair.value.after))];
      }
    }

    /** The body the headers announce. */
    method NextBody(start: Start, headers: seq<Header>) returns (request: Option<Request>, error: Option<Error>)
      requires Repr()
      modifies this
      ensures Repr()
      ensures Agrees(ReadBody(start, headers, old(Remaining())), request, error)
    {
      var body: Bytes := [];
      var declared := Get(headers, CONTENT_LENGTH);
      if declared.Some? {
        var size := ParseSize(declared.value);
        if size == None || size.value > MAX_BODY {
          return None, Some(BadData);
        }
        if size.value > |input| - pos {
          return None, Some(UnexpectedEof);
        }
        ghost var before := Remaining();
        body := input[pos..pos + size.value];
        pos := pos + size.value;
        assert body == before[..size.value] && Remaining() == before[size.value..];
      }
      request, error := Some(Request(start.method_, start.uri, headers, body)), None;
    }

    /** What was returned, and where the reader stands, is what the outcome says. */
    ghost predicate Agrees(o: Outcome, request: Option<Request>, error: Option<Error>)
      requires Repr()
      reads this
    {
      match o
      case EndOfStream => request == None && error == None
      case Failed(e) => request == None && error == Some(e)
      case Message(r, rest) => request == Some(r) && error == None && Remaining() == rest
    }

    /** Read one request off the stream, consuming exactly its bytes. */
    method Next(utf8: Utf8) returns (request: Option<Request>, error: Option<Error>)
      requires Repr()
      modifies this
      ensures Repr()
      ensures Agrees(ReadRequest(utf8, old(Remaining())), request, error)
    {
      hide ReadLine, ReadBody, ReadHeaders, RequestLine;
      var line, ok := NextLine(utf8);
      if !ok {
        return None, Some(BadData);
      }
      if line == None || line.value == [] {
        return None, None;
      }
      var start := RequestLine(line.value);
      if start == None {
        return None, Some(BadData);
      }
      var headers := NextHeaders(utf8);
      if headers == None {
        return None, Some(BadData);
      }
      request, error := NextBody(start.value, headers.value);
    }
  }

  // ----- Framing -----

  function HeaderLine(h: Header): Bytes {
    h.name + [COLON, SPACE] + h.value
  }

  function StartLine(r: Request): Bytes {
    r.method_ + [SPACE] + r.uri + [SPACE] + VERSION
  }

  function PrintHeaders(headers: seq<Header>): Bytes {
    if headers == [] then CRLF else HeaderLine(headers[0]) + CRLF + PrintHeaders(headers[1..])
  }

  function Print(r: Request): Bytes {
    StartLine(r) + CRLF + PrintHeaders(r.headers) + r.body
  }

  predicate Free(s: Bytes, b: byte) {
    forall i :: 0 <= i < |s| ==> s[i] != b
  }

  predicate GoodHeader(utf8: Utf8, h: Header) {
    && Free(h.name, COLON) && Free(h.name, LF) && Free(h.value, LF)
    && Trim(h.name) == h.name && Trim(h.value) == h.value
    && utf8(HeaderLine(h) + CRLF)
  }

  // ----- Content-Length -----

  /** The decimal digits of a number. */
  function Decimal(n: nat): Bytes {
    if n < 10 then [0x30 + n] else Decimal(n / 10) + [0x30 + n % 10]
  }

  function Zeros(z: nat): Bytes {
    seq(z, _ => 0x30)
  }

  /** Text for a number: its digits, after any zeros and possibly a plus sign. */
  ghost predicate Denotes(s: Bytes, n: nat) {
    exists z: nat :: s == Zeros(z) + Decimal(n) || s == [0x2B] + (Zeros(z) + Decimal(n))
  }

  lemma {:induction false} DecimalDigits(n: nat)
    ensures Decimal(n) != [] && Digits(Decimal(n)) == Some(n)
    ensures forall i :: 0 <= i < |Decimal(n)| ==> 0x30 <= Decimal(n)[i] <= 0x39
  {
    if n < 10 {
      assert Decimal(n)[..0] == [];
    } else {
      DecimalDigits(n / 10);
      assert Decimal(n)[..|Decimal(n)| - 1] == Decimal(n / 10);
    }
  }

  lemma {:induction false} LeadingZeros(z: nat, s: Bytes)
    requires s != []
    ensures Digits(Zeros(z) + s) == Digits(s)
  {
    var all := Zeros(z) + s;
    assert all[..|all| - 1] == Zeros(z) + s[..|s| - 1];
    if |s| == 1 {
      assert all[..|all| - 1] == Zeros(z);
      ZerosAreNothing(z);
      assert s[..0] == [];
    } else {
      LeadingZeros(z, s[..|s| - 1]);
    }
  }

  lemma {:induction false} ZerosAreNothing(z: nat)
    ensures Digits(Zeros(z)) == Some(0)
  {
    if z > 0 {
      assert Zeros(z)[..z - 1] == Zeros(z - 1);
      ZerosAreNothing(z - 1);
    }
  }

  /** Whatever reads as a number is its digits, after some zeros. */
  lemma {:induction false} DigitsAreDecimal(s: Bytes, n: nat) returns (z: nat)
    requires s != [] && Digits(s) == Some(n)
    ensures s == Zeros(z) + Decimal(n)
  {
    var init, d := s[..|s| - 1], s[|s| - 1];
    assert s == init + [d];
    if init == [] {
      z := 0;
      assert Digits(init) == Some(0);
    } else {
      var m := Digits(init).value;
      z := DigitsAreDecimal(init, m);
      if m == 0 {
        assert init == Zeros(z + 1);
        z := z + 1;
      } else {
        assert n / 10 == m && n % 10 == d - 0x30;
        assert Zeros(z) + Decimal(m) + [d] == Zeros(z) + (Decimal(m) + [d]);
      }
    }
  }

  lemma {:induction false} DigitsHaveNoPlus(s: Bytes)
    requires Digits(s).Some? && s != []
    ensures s[0] != 0x2B
  {
    if |s| > 1 {
      DigitsHaveNoPlus(s[..|s| - 1]);
    }
  }

  /** A length is read exactly from the text for a number below 2^64, as that
      number; any other text is refused. */
  lemma ParseSizeIff(s: Bytes, n: nat)
    ensures ParseSize(s) == Some(n) <==> n < 0x1_0000_0000_0000_0000 && Denotes(s, n)
  {
    if ParseSize(s) == Some(n) {
      var signed := s[0] == 0x2B;
      var z := DigitsAreDecimal(if signed then s[1..] else s, n);
      assert signed ==> s == [0x2B] + s[1..];
    }
    if z: nat :| s == Zeros(z) + Decimal(n) || s == [0x2B] + (Zeros(z) + Decimal(n)) {
      DecimalDigits(n);
      LeadingZeros(z, Decimal(n));
      DigitsHaveNoPlus(Zeros(z) + Decimal(n));
      assert s == [0x2B] + (Zeros(z) + Decimal(n)) ==> s[1..] == Zeros(z) + Decimal(n);
    }
  }

  lemma DecimalParses(n: nat)
    requires n < 0x1_0000_0000_0000_0000
    ensures ParseSize(Decimal(n)) == Some(n)
  {
    assert Decimal(n) == Zeros(0) + Decimal(n);
    ParseSizeIff(Decimal(n), n);
  }

  /** The same letter, in whatever case. */
  predicate SameLetter(a: byte, b: byte) {
    || a == b
    || (0x41 <= a <= 0x5A && b == a + 0x20)
    || (0x41 <= b <= 0x5A && a == b + 0x20)
  }

  lemma SameNameIff(a: Bytes, b: Bytes)
    ensures SameName(a, b) <==> |a| == |b| && forall i :: 0 <= i < |a| ==> SameLetter(a[i], b[i])
  {
    if SameName(a, b) {
      forall i | 0 <= i < |a| ensures SameLetter(a[i], b[i]) {
        assert Lower(a[i]) == Lower(b[i]);
      }
    }
  }

  predicate NamesLength(name: Bytes) {
    |name| == 14 && forall i :: 0 <= i < 14 ==> SameLetter(name[i], "Content-Length"[i] as int)
  }

  lemma ContentLengthIs()
    ensures |CONTENT_LENGTH| == 14 && forall i :: 0 <= i < 14 ==> CONTENT_LENGTH[i] == "Content-Length"[i] as int
    ensures RTSP_PREFIX == ['R' as int, 'T' as int, 'S' as int, 'P' as int, '/' as int]
  {
  }

  ghost predicate FirstLengthAt(headers: seq<Header>, i: int) {
    && 0 <= i < |headers| && NamesLength(headers[i].name)
    && forall j :: 0 <= j < i ==> !NamesLength(headers[j].name)
  }

  lemma NamesLengthIff(name: Bytes)
    ensures SameName(name, CONTENT_LENGTH) <==> NamesLength(name)
  {
    ContentLengthIs();
    SameNameIff(name, CONTENT_LENGTH);
    hide SameLetter, SameName, CONTENT_LENGTH;
    if |name| == 14 {
      assert forall i :: 0 <= i < 14 ==>
        (SameLetter(name[i], CONTENT_LENGTH[i]) <==> SameLetter(name[i], "Content-Length"[i] as int));
    }
  }

  /** The lookup finds the first header of that name, in any case. */
  lemma {:induction false} GetLengthIff(headers: seq<Header>)
    ensures match Get(headers, CONTENT_LENGTH)
            case Some(value) => exists i :: FirstLengthAt(headers, i) && headers[i].value == value
            case None => forall i :: 0 <= i < |headers| ==> !NamesLength(headers[i].name)
  {
    hide NamesLength, SameName;
    if headers != [] {
      NamesLengthIff(headers[0].name);
      var rest := headers[1..];
      GetLengthIff(rest);
      if SameName(headers[0].name, CONTENT_LENGTH) {
        assert FirstLengthAt(headers, 0);
      } else if Get(rest, CONTENT_LENGTH).Some? {
        var i :| FirstLengthAt(rest, i) && rest[i].value == Get(rest, CONTENT_LENGTH).value;
        forall j | 0 <= j < i + 1 ensures !NamesLength(headers[j].name) {
          if j > 0 { assert headers[j] == rest[j - 1]; }
        }
        assert headers[i + 1] == rest[i];
        assert FirstLengthAt(headers, i + 1);
      } else {
        forall i | 0 <= i < |headers| ensures !NamesLength(headers[i].name) {
          if i > 0 { assert headers[i] == rest[i - 1]; }
        }
      }
    }
  }

  /** The headers say that the body is `length` bytes long: the first Content-Length
      does, or there is none and no body. */
  ghost predicate Declare(headers: seq<Header>, length: nat) {
    || (exists i :: FirstLengthAt(headers, i) && Denotes(headers[i].value, length))
    || (length == 0 && forall i :: 0 <= i < |headers| ==> !NamesLength(headers[i].name))
  }

  lemma FirstLengthUnique(headers: seq<Header>, i: int, j: int)
    requires FirstLengthAt(headers, i) && FirstLengthAt(headers, j)
    ensures i == j
  {
  }

  lemma DeclareIff(headers: seq<Header>, length: nat)
    requires length < 0x1_0000_0000_0000_0000
    ensures Declare(headers, length)
        <==> match Get(headers, CONTENT_LENGTH)
             case Some(value) => ParseSize(value) == Some(length)
             case None => length == 0
  {
    GetLengthIff(headers);
    hide NamesLength, Get, ParseSize, Denotes;
    match Get(headers, CONTENT_LENGTH)
    case Some(value) =>
      var i :| FirstLengthAt(headers, i) && headers[i].value == value;
      ParseSizeIff(value, length);
      forall j | FirstLengthAt(headers, j) ensures j == i {
        FirstLengthUnique(headers, i, j);
      }
    case None =>
  }

  // ----- Requests that can be printed -----

  /** A request that can be put on the wire: separators do not occur where they
      would split it, names and values carry no outer white space, and the first
      Content-Length says how long the body is. */
  ghost predicate Good(utf8: Utf8, r: Request) {
    && r.method_ != [] && Free(r.method_, SPACE) && Free(r.method_, LF)
    && Free(r.uri, SPACE) && Free(r.uri, LF)
    && utf8(StartLine(r) + CRLF) && utf8(CRLF)
    && |r.headers| <= 128
    && (forall i :: 0 <= i < |r.headers| ==> GoodHeader(utf8, r.headers[i]))
    && |r.body| <= 8_388_608
    && Declare(r.headers, |r.body|)
  }

  lemma {:induction false} RawLineOf(line: Bytes, more: Bytes)
    requires Free(line, LF)
    ensures RawLine(line + CRLF + more) == line + CRLF
  {
    var data := line + CRLF + more;
    if line == [] {
      assert data[0] == CR && data[1..][0] == LF;
      assert RawLine(data[1..]) == [LF];
      assert RawLine(data) == [CR] + [LF];
    } else {
      assert data[1..] == line[1..] + CRLF + more;
      RawLineOf(line[1..], more);
      assert [line[0]] + (line[1..] + CRLF) == line + CRLF;
    }
  }

  predicate Unchompable(line: Bytes) {
    line == [] || (line[|line| - 1] != LF && line[|line| - 1] != CR)
  }

  lemma ChompCrlf(line: Bytes)
    requires Unchompable(line)
    ensures Chomp(line + CRLF) == line
  {
    assert (line + CRLF)[..|line + CRLF| - 1] == line + [CR];
    assert Chomp(line + CRLF) == Chomp(line + [CR]);
    assert (line + [CR])[..|line + [CR]| - 1] == line;
    assert Chomp(line + [CR]) == Chomp(line);
  }

  /** A printed line reads back as itself, and nothing more is consumed. */
  lemma ReadPrintedLine(utf8: Utf8, line: Bytes, more: Bytes)
    requires Free(line, LF) && Unchompable(line) && utf8(line + CRLF)
    ensures ReadLine(utf8, line + CRLF + more) == Text(line, more)
  {
    RawLineOf(line, more);
    ChompCrlf(line);
    assert (line + CRLF + more)[|line + CRLF|..] == more;
  }

  lemma {:induction false} SplitAt(a: Bytes, separator: byte, b: Bytes)
    requires Free(a, separator)
    ensures SplitOnce(a + [separator] + b, separator) == Some(Pair(a, b))
  {
    var s := a + [separator] + b;
    if a == [] {
      assert s[1..] == b;
    } else {
      assert s[1..] == a[1..] + [separator] + b;
      SplitAt(a[1..], separator, b);
      assert [a[0]] + a[1..] == a;
    }
  }

  lemma TrimmedEnds(s: Bytes)
    requires Trim(s) == s && s != []
    ensures !IsSpace(s[0]) && !IsSpace(s[|s| - 1])
  {
    TrimStartShortens(s);
    TrimEndShortens(TrimStart(s));
    if IsSpace(s[0]) {
      TrimStartShortens(s[1..]);
    }
    if IsSpace(s[|s| - 1]) {
      TrimEndShortens(s[..|s| - 1]);
    }
  }

  lemma {:induction false} TrimStartShortens(s: Bytes)
    ensures |TrimStart(s)| <= |s|
    ensures |TrimStart(s)| == |s| ==> TrimStart(s) == s
  {
    if s != [] && IsSpace(s[0]) {
      TrimStartShortens(s[1..]);
    }
  }

  lemma {:induction false} TrimEndShortens(s: Bytes)
    ensures |TrimEnd(s)| <= |s|
  {
    if s != [] && IsSpace(s[|s| - 1]) {
      TrimEndShortens(s[..|s| - 1]);
    }
  }

  /** The space after the colon is trimmed away again. */
  lemma TrimAfterColon(value: Bytes)
    requires Trim(value) == value
    ensures Trim([SPACE] + value) == value
  {
    assert ([SPACE] + value)[1..] == value;
    assert TrimStart([SPACE] + value) == TrimStart(value);
  }

  lemma HeaderLineReads(utf8: Utf8, h: Header)
    requires GoodHeader(utf8, h)
    ensures var line := HeaderLine(h);
            && line != [] && Free(line, LF) && Unchompable(line)
            && SplitOnce(line, COLON) == Some(Pair(h.name, [SPACE] + h.value))
            && Trim([SPACE] + h.value) == h.value
  {
    assert HeaderLine(h) == h.name + [COLON] + ([SPACE] + h.value);
    SplitAt(h.name, COLON, [SPACE] + h.value);
    TrimAfterColon(h.value);
    if h.value != [] {
      TrimmedEnds(h.value);
    }
  }

  lemma HeaderReadsBack(utf8: Utf8, done: seq<Header>, h: Header, rest: Bytes)
    requires GoodHeader(utf8, h) && |done| < MAX_HEADERS
    ensures ReadHeaders(utf8, HeaderLine(h) + CRLF + rest, done) == ReadHeaders(utf8, rest, done + [h])
  {
    HeaderLineReads(utf8, h);
    ReadPrintedLine(utf8, HeaderLine(h), rest);
    hide HeaderLine, ReadLine, SplitOnce, Trim, Free, Unchompable;
  }

  lemma BlankLineReads(utf8: Utf8, done: seq<Header>, rest: Bytes)
    requires utf8(CRLF)
    ensures ReadHeaders(utf8, CRLF + rest, done) == Block(done, rest)
  {
    assert [] + CRLF == CRLF && CRLF + rest == [] + CRLF + rest;
    ReadPrintedLine(utf8, [], rest);
    hide ReadLine;
  }

  lemma {:induction false} HeadersReadBack(utf8: Utf8, done: seq<Header>, todo: seq<Header>, more: Bytes)
    requires utf8(CRLF) && |done| + |todo| <= MAX_HEADERS
    requires forall i :: 0 <= i < |todo| ==> GoodHeader(utf8, todo[i])
    ensures ReadHeaders(utf8, PrintHeaders(todo) + more, done) == Block(done + todo, more)
    decreases todo
  {
    hide ReadHeaders, GoodHeader, HeaderLine;
    if todo == [] {
      BlankLineReads(utf8, done, more);
      assert done + todo == done;
    } else {
      var rest := PrintHeaders(todo[1..]) + more;
      assert PrintHeaders(todo) + more == HeaderLine(todo[0]) + CRLF + rest;
      HeaderReadsBack(utf8, done, todo[0], rest);
      HeadersReadBack(utf8, done + [todo[0]], todo[1..], more);
      assert done + [todo[0]] + todo[1..] == done + todo;
    }
  }

  lemma StartLineReads(utf8: Utf8, r: Request)
    requires Good(utf8, r)
    ensures var line := StartLine(r);
            && line != [] && Free(line, LF) && Unchompable(line)
            && RequestLine(line) == Some(Start(r.method_, r.uri))
  {
    var tail := r.uri + [SPACE] + VERSION;
    assert StartLine(r) == r.method_ + [SPACE] + tail;
    SplitAt(r.method_, SPACE, tail);
    SplitAt(r.uri, SPACE, VERSION);
  }

  /** A printed request reads back as itself, whatever follows it, and exactly
      its bytes are consumed. */
  lemma RequestReadsBack(utf8: Utf8, r: Request, more: Bytes)
    requires Good(utf8, r)
    ensures ReadRequest(utf8, Print(r) + more) == Message(r, more)
  {
    hide Get, ParseSize, RequestLine, ReadHeaders, ReadBody, ReadLine;
    var afterHeaders := r.body + more;
    var afterStart := PrintHeaders(r.headers) + afterHeaders;
    assert Print(r) + more == StartLine(r) + CRLF + afterStart;
    StartLineReads(utf8, r);
    ReadPrintedLine(utf8, StartLine(r), afterStart);
    HeadersReadBack(utf8, [], r.headers, afterHeaders);
    assert [] + r.headers == r.headers;
    BodyReadsBack(utf8, r, more);
  }

  lemma BodyReadsBack(utf8: Utf8, r: Request, more: Bytes)
    requires Good(utf8, r)
    ensures ReadBody(Start(r.method_, r.uri), r.headers, r.body + more) == Message(r, more)
  {
    DeclareIff(r.headers, |r.body|);
    hide Declare, Get, ParseSize;
    assert (r.body + more)[..|r.body|] == r.body && (r.body + more)[|r.body|..] == more;
    assert [] + more == more;
  }

  /** Every request on the stream until it ends or must be dropped. */
  datatype Transcript = Transcript(requests: seq<Request>, error: Option<Error>)

  function ReadAll(utf8: Utf8, data: Bytes): Transcript
    decreases |data|
  {
    match ReadRequest(utf8, data)
    case EndOfStream => Transcript([], None)
    case Failed(e) => Transcript([], Some(e))
    case Message(r, rest) =>
      RestIsShorter(utf8, data);
      var t := ReadAll(utf8, rest);
      Transcript([r] + t.requests, t.error)
  }

  lemma {:induction false} HeadersConsume(utf8: Utf8, data: Bytes, headers: seq<Header>)
    requires |headers| <= MAX_HEADERS
    ensures var b := ReadHeaders(utf8, data, headers);
            b.Block? ==> |b.rest| < |data| && headers <= b.headers && |b.headers| <= MAX_HEADERS
    decreases |data|
  {
    var l := ReadLine(utf8, data);
    if l.Text? && l.line != [] && |headers| < MAX_HEADERS {
      var p := SplitOnce(l.line, COLON);
      if p.Some? {
        HeadersConsume(utf8, l.rest, headers + [Header(Trim(p.value.before), Trim(p.value.after))]);
      }
    }
  }

  /** Whatever the stream, an accepted request is bounded and its body is as long
      as its Content-Length says; progress is made with every request. */
  lemma RestIsShorter(utf8: Utf8, data: Bytes)
    ensures var o := ReadRequest(utf8, data);
            o.Message? ==>
              && |o.rest| < |data|
              && o.request.method_ != []
              && |o.request.headers| <= 128 && |o.request.body| <= 8_388_608
              && Declare(o.request.headers, |o.request.body|)
  {
    if ReadRequest(utf8, data).Message? {
      DeclareIff(ReadRequest(utf8, data).request.headers, |ReadRequest(utf8, data).request.body|);
    }
    hide Declare, Get, ParseSize;
    var l := ReadLine(utf8, data);
    if l.Text? {
      HeadersConsume(utf8, l.rest, []);
    }
  }

  function PrintAll(rs: seq<Request>): Bytes {
    if rs == [] then [] else Print(rs[0]) + PrintAll(rs[1..])
  }

  /** Framing: reading the concatenated printed form of any list of well-formed
      requests yields exactly that list, and then the end of the stream. */
  lemma {:induction false} FramingRoundTrip(utf8: Utf8, rs: seq<Request>)
    requires forall i :: 0 <= i < |rs| ==> Good(utf8, rs[i])
    ensures ReadAll(utf8, PrintAll(rs)) == Transcript(rs, None)
  {
    if rs != [] {
      RequestReadsBack(utf8, rs[0], PrintAll(rs[1..]));
      FramingRoundTrip(utf8, rs[1..]);
      assert [rs[0]] + rs[1..] == rs;
    }
  }

  /** The connection loop reads exactly the transcript of its stream. */
  method ReadConnection(utf8: Utf8, input: Bytes) returns (requests: seq<Request>, error: Option<Error>)
    ensures Transcript(requests, error) == ReadAll(utf8, input)
  {
    hide ReadRequest;
    var reader := new Reader(input);
    requests := [];
    var request;
    request, error := reader.Next(utf8);
    ghost var before := input;
    while request.Some?
      invariant reader.Repr() && fresh(reader)
      invariant reader.Agrees(ReadRequest(utf8, before), request, error)
      invariant ReadAll(utf8, input) == Prepend(requests, ReadAll(utf8, before))
      decreases |before|, request.Some?
    {
      RestIsShorter(utf8, before);
      requests := requests + [request.value];
      before := reader.Remaining();
      request, error := reader.Next(utf8);
    }
  }

  function Prepend(requests: seq<Request>, t: Transcript): Transcript {
    Transcript(requests + t.requests, t.error)
  }

  // ----- Where reading stops without an error -----

  /** `data` begins with `k` carriage returns, and then ends or ends its line. */
  predicate BlankLine(data: Bytes, k: int) {
    && 0 <= k <= |data| && (forall i :: 0 <= i < k ==> data[i] == CR)
    && (k < |data| ==> data[k] == LF)
  }

  predicate OnlyLineEnds(line: Bytes) {
    forall i :: 0 <= i < |line| ==> line[i] == CR || line[i] == LF
  }

  lemma {:induction false} ChompsToNothing(line: Bytes)
    ensures Chomp(line) == [] <==> OnlyLineEnds(line)
  {
    if line != [] && (line[|line| - 1] == LF || line[|line| - 1] == CR) {
      ChompsToNothing(line[..|line| - 1]);
    }
  }

  lemma {:induction false} BlankRawLine(data: Bytes)
    ensures OnlyLineEnds(RawLine(data)) <==> exists k :: BlankLine(data, k)
  {
    if data == [] {
      assert BlankLine(data, 0);
    } else if data[0] == LF {
      assert BlankLine(data, 0);
    } else {
      var rest := data[1..];
      BlankRawLine(rest);
      var line := RawLine(data);
      assert line == [data[0]] + RawLine(rest);
      if OnlyLineEnds(line) {
        forall i | 0 <= i < |RawLine(rest)| ensures RawLine(rest)[i] == CR || RawLine(rest)[i] == LF {
          assert line[i + 1] == RawLine(rest)[i];
        }
        var k :| BlankLine(rest, k);
        assert BlankLine(data, k + 1);
      }
      if k :| BlankLine(data, k) {
        assert k > 0 && data[0] == CR;
        assert BlankLine(rest, k - 1);
      }
    }
  }

  /** A request is not found, and no error reported, exactly at the end of the stream
      or where a blank line stands in its place: carriage returns only, up to a line
      feed or to the end. */
  lemma EndsIff(utf8: Utf8, data: Bytes)
    ensures ReadRequest(utf8, data) == EndOfStream
        <==> data == [] || (utf8(RawLine(data)) && exists k :: BlankLine(data, k))
  {
    ChompsToNothing(RawLine(data));
    BlankRawLine(data);
  }

  /** So a blank line between two requests ends the connection as if the sender had
      closed it: what follows is never read, well-formed or not. */
  lemma {:induction false} BlankLineEndsConnection(utf8: Utf8, rs: seq<Request>, unread: Bytes)
    requires utf8(CRLF) && forall i :: 0 <= i < |rs| ==> Good(utf8, rs[i])
    ensures ReadAll(utf8, PrintAll(rs) + CRLF + unread) == Transcript(rs, None)
    decreases rs
  {
    if rs == [] {
      assert PrintAll(rs) + CRLF + unread == CRLF + unread;
      assert [] + CRLF == CRLF && CRLF + unread == [] + CRLF + unread;
      ReadPrintedLine(utf8, [], unread);
    } else {
      var more := PrintAll(rs[1..]) + CRLF + unread;
      assert PrintAll(rs) + CRLF + unread == Print(rs[0]) + more;
      RequestReadsBack(utf8, rs[0], more);
      BlankLineEndsConnection(utf8, rs[1..], unread);
      assert [rs[0]] + rs[1..] == rs;
    }
  }

  // ----- What is refused -----

  lemma {:induction false} SplitIff(s: Bytes, separator: byte, p: Pair)
    ensures SplitOnce(s, separator) == Some(p)
        <==> s == p.before + [separator] + p.after && Free(p.before, separator)
    ensures SplitOnce(s, separator) == None <==> Free(s, separator)
  {
    if s != [] && s[0] != separator {
      SplitIff(s[1..], separator, if p.before == [] then p else Pair(p.before[1..], p.after));
      if SplitOnce(s, separator) == Some(p) {
        assert p.before[1..] + [separator] + p.after == s[1..];
        assert p.before == [s[0]] + p.before[1..];
      }
      if s == p.before + [separator] + p.after && Free(p.before, separator) {
        assert p.before != [] && p.before[0] == s[0];
        assert s[1..] == p.before[1..] + [separator] + p.after;
        assert [s[0]] + p.before[1..] == p.before;
      }
      if Free(s[1..], separator) {
        forall i | 0 <= i < |s| ensures s[i] != separator {
          if i > 0 { assert s[i] == s[1..][i - 1]; }
        }
      }
    } else if s != [] {
      assert s == [] + [separator] + s[1..];
    }
  }

  /** A line starts a request exactly if it is a nonempty method, a URI and an RTSP
      version, split at its first two spaces. */
  lemma RequestLineIff(line: Bytes, method_: Bytes, uri: Bytes)
    ensures RequestLine(line) == Some(Start(method_, uri))
        <==> exists version: Bytes ::
               && line == method_ + [SPACE] + (uri + [SPACE] + version)
               && method_ != [] && Free(method_, SPACE) && Free(uri, SPACE) && RTSP_PREFIX <= version
  {
    hide Free, SplitOnce;
    if RequestLine(line) == Some(Start(method_, uri)) {
      var first := SplitOnce(line, SPACE).value;
      var second := SplitOnce(first.after, SPACE).value;
      SplitIff(line, SPACE, first);
      SplitIff(first.after, SPACE, second);
      assert line == method_ + [SPACE] + (uri + [SPACE] + second.after);
    }
    if version: Bytes :|
      && line == method_ + [SPACE] + (uri + [SPACE] + version)
      && method_ != [] && Free(method_, SPACE) && Free(uri, SPACE) && RTSP_PREFIX <= version
    {
      SplitIff(line, SPACE, Pair(method_, uri + [SPACE] + version));
      SplitIff(uri + [SPACE] + version, SPACE, Pair(uri, version));
    }
  }

  predicate IsOuterSpace(b: byte) {
    b == 9 || b == 10 || b == 11 || b == 12 || b == 13 || b == 32
  }

  predicate Blank(s: Bytes) {
    forall i :: 0 <= i < |s| ==> IsOuterSpace(s[i])
  }

  lemma {:induction false} TrimStartIs(s: Bytes) returns (left: Bytes)
    ensures s == left + TrimStart(s) && Blank(left)
    ensures TrimStart(s) != [] ==> !IsOuterSpace(TrimStart(s)[0])
  {
    left := [];
    if s != [] && IsSpace(s[0]) {
      left := TrimStartIs(s[1..]);
      assert s == [s[0]] + s[1..];
      left := [s[0]] + left;
    }
  }

  lemma {:induction false} TrimEndIs(s: Bytes) returns (right: Bytes)
    ensures s == TrimEnd(s) + right && Blank(right)
    ensures TrimEnd(s) != [] ==> !IsOuterSpace(TrimEnd(s)[|TrimEnd(s)| - 1])
  {
    right := [];
    if s != [] && IsSpace(s[|s| - 1]) {
      right := TrimEndIs(s[..|s| - 1]);
      assert s == s[..|s| - 1] + [s[|s| - 1]];
      right := right + [s[|s| - 1]];
    }
  }

  /** Trimming takes away white space on both sides, all of it and nothing else. */
  lemma TrimIsExact(s: Bytes) returns (left: Bytes, right: Bytes)
    ensures s == left + Trim(s) + right && Blank(left) && Blank(right)
    ensures Trim(s) != [] ==> !IsOuterSpace(Trim(s)[0]) && !IsOuterSpace(Trim(s)[|Trim(s)| - 1])
  {
    left := TrimStartIs(s);
    right := TrimEndIs(TrimStart(s));
    hide TrimStart, TrimEnd;
    if Trim(s) != [] {
      assert Trim(s)[0] == TrimStart(s)[0];
    }
  }

  /** A request cut off inside its body is refused as such, one that announces more
      than 8 MiB as bad data. */
  lemma TruncatedIsRefused(utf8: Utf8, r: Request, k: nat)
    requires Good(utf8, r) && k < |r.body|
    ensures ReadRequest(utf8, StartLine(r) + CRLF + (PrintHeaders(r.headers) + r.body[..k])) == Failed(UnexpectedEof)
  {
    hide Get, ParseSize, RequestLine, ReadHeaders, ReadLine, Declare;
    var body := r.body[..k];
    StartLineReads(utf8, r);
    ReadPrintedLine(utf8, StartLine(r), PrintHeaders(r.headers) + body);
    HeadersReadBack(utf8, [], r.headers, body);
    assert [] + r.headers == r.headers;
    DeclareIff(r.headers, |r.body|);
  }

  lemma TooLargeIsRefused(start: Start, headers: seq<Header>, length: nat, data: Bytes)
    requires Declare(headers, length) && 8_388_608 < length < 0x1_0000_0000_0000_0000
    ensures ReadBody(start, headers, data) == Failed(BadData)
  {
    DeclareIff(headers, length);
    hide Declare, Get, ParseSize;
  }

  /** Header lines as printed, without the blank line that ends them. */
  function HeaderLines(headers: seq<Header>): Bytes {
    if headers == [] then [] else HeaderLine(headers[0]) + CRLF + HeaderLines(headers[1..])
  }

  lemma {:induction false} LinesRead(utf8: Utf8, done: seq<Header>, todo: seq<Header>, more: Bytes)
    requires |done| + |todo| <= MAX_HEADERS && forall i :: 0 <= i < |todo| ==> GoodHeader(utf8, todo[i])
    ensures ReadHeaders(utf8, HeaderLines(todo) + more, done) == ReadHeaders(utf8, more, done + todo)
    decreases todo
  {
    hide ReadHeaders, GoodHeader, HeaderLine;
    if todo == [] {
      assert HeaderLines(todo) + more == more && done + todo == done;
    } else {
      var rest := HeaderLines(todo[1..]) + more;
      assert HeaderLines(todo) + more == HeaderLine(todo[0]) + CRLF + rest;
      HeaderReadsBack(utf8, done, todo[0], rest);
      LinesRead(utf8, done + [todo[0]], todo[1..], more);
      assert done + [todo[0]] + todo[1..] == done + todo;
    }
  }

  /** After any headers, the end of the stream, a line that is not text, a line
      without a colon, or a 129th header is refused. */
  lemma HeadersAreRefused(utf8: Utf8, headers: seq<Header>, line: Bytes, more: Bytes)
    requires |headers| <= 128 && forall i :: 0 <= i < |headers| ==> GoodHeader(utf8, headers[i])
    requires line != [] && Free(line, LF) && Unchompable(line)
    ensures ReadHeaders(utf8, HeaderLines(headers), []) == BadBlock
    ensures !utf8(line + CRLF) || Free(line, COLON) || |headers| == 128 ==>
              ReadHeaders(utf8, HeaderLines(headers) + (line + CRLF + more), []) == BadBlock
  {
    LinesRead(utf8, [], headers, []);
    LinesRead(utf8, [], headers, line + CRLF + more);
    assert HeaderLines(headers) + [] == HeaderLines(headers) && [] + headers == headers;
    RawLineOf(line, more);
    SplitIff(line, COLON, Pair([], []));
    if utf8(line + CRLF) {
      ReadPrintedLine(utf8, line, more);
    }
  }

  /** A first line that is not text, or no start of a request, is bad data; bad
      headers are too. */
  lemma StartIsRefused(utf8: Utf8, line: Bytes, more: Bytes)
    requires line != [] && Free(line, LF) && Unchompable(line)
    ensures !utf8(line + CRLF) || RequestLine(line).None? || ReadHeaders(utf8, more, []).BadBlock? ==>
              ReadRequest(utf8, line + CRLF + more) == Failed(BadData)
  {
    RawLineOf(line, more);
    if utf8(line + CRLF) {
      ReadPrintedLine(utf8, line, more);
    }
    hide RequestLine, ReadHeaders;
  }
}
