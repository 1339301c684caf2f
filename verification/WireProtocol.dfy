/** The wire framing of twistedcaldav/memcacheclient.py: reading lines and counted data from a
    connection that delivers its stream in chunks, the reply to a get, and values as flagged
    byte strings. */
module WireProtocol {

  import opened Collections

  type Bytes = string

  const CRLF: Bytes := "\r\n"

  // ----- Lines -----

  /** Where the first CRLF is, or -1. */
  function Find(s: Bytes): (i: int)
    ensures -1 <= i < |s|
    ensures i >= 0 ==> i + 2 <= |s| && s[i] == '\r' && s[i + 1] == '\n'
    ensures forall j {:trigger s[j]} :: 0 <= j && j + 1 < |s| && (i < 0 || j < i) ==>
              !(s[j] == '\r' && s[j + 1] == '\n')
  {
    if |s| < 2 then -1
    else if s[0] == '\r' && s[1] == '\n' then 0
    else
      var i := Find(s[1..]);
      if i < 0 then -1 else i + 1
  }

  lemma FindFirst(s: Bytes, i: nat)
    requires i + 2 <= |s| && s[i] == '\r' && s[i + 1] == '\n'
    requires forall j {:trigger s[j]} :: 0 <= j < i ==> !(s[j] == '\r' && s[j + 1] == '\n')
    ensures Find(s) == i
  {
    var f := Find(s);
    assert s[i] == '\r';
    assert f >= 0 ==> s[f] == '\r';
  }

  /** A terminator that has arrived stays the first one, whatever arrives later. */
  lemma FindStable(a: Bytes, b: Bytes)
    requires Find(a) >= 0
    ensures Find(a + b) == Find(a)
  {
    var i := Find(a);
    assert forall j {:trigger (a + b)[j]} :: 0 <= j < i ==> !((a + b)[j] == '\r' && (a + b)[j + 1] == '\n') by {
      assert forall j :: 0 <= j <= i + 1 ==> (a + b)[j] == a[j];
    }
    FindFirst(a + b, i);
  }

  /** A line of a stream and what follows; without a terminator, the stream ended in it. */
  datatype Line = Line(text: Bytes, rest: Bytes, closed: bool)

  function NextLine(s: Bytes): Line {
    var i := Find(s);
    if i >= 0 then Line(s[..i], s[i + 2..], false) else Line(s, "", true)
  }

  lemma LineFound(buf: Bytes, later: Bytes)
    requires Find(buf) >= 0
    ensures NextLine(buf + later) == Line(buf[..Find(buf)], buf[Find(buf) + 2..] + later, false)
  {
    hide Find;
    FindWithin(buf);
    FindStable(buf, later);
    CutsFirst(buf, later, Find(buf));
  }

  lemma FindWithin(s: Bytes)
    ensures Find(s) >= 0 ==> Find(s) + 2 <= |s|
  {
  }

  lemma CutsFirst(a: Bytes, b: Bytes, i: nat)
    requires i + 2 <= |a|
    ensures (a + b)[..i] == a[..i] && (a + b)[i + 2..] == a[i + 2..] + b
  {
  }

  lemma LineClosed(buf: Bytes)
    requires Find(buf) < 0
    ensures NextLine(buf) == Line(buf, "", true)
  {
  }

  ghost predicate NoTerminator(text: Bytes) {
    forall j :: 0 <= j < |text| ==> text[j] != '\r'
  }

  lemma LineOf(text: Bytes, rest: Bytes)
    requires NoTerminator(text)
    ensures NextLine(text + CRLF + rest) == Line(text, rest, false)
  {
    var s := text + CRLF + rest;
    assert forall j :: 0 <= j < |text| ==> s[j] == text[j];
    FindFirst(s, |text|);
    assert s[..|text|] == text;
    assert s[|text| + 2..] == rest;
  }

  // ----- Words and numbers -----

  predicate IsSpace(c: char) {
    c == ' ' || ('\t' <= c <= '\r')
  }

  predicate IsWord(w: Bytes) {
    w != "" && forall j :: 0 <= j < |w| ==> !IsSpace(w[j])
  }

  /** How many of the first characters are not white space. */
  function WordLength(s: Bytes): (n: nat)
    ensures n <= |s| && forall j :: 0 <= j < n ==> !IsSpace(s[j])
    ensures n < |s| ==> IsSpace(s[n])
  {
    if s == "" || IsSpace(s[0]) then 0 else 1 + WordLength(s[1..])
  }

  /** The words of a line: the runs of characters between white space. */
  function Split(s: Bytes): (ws: seq<Bytes>)
    ensures forall w :: w in ws ==> IsWord(w)
    decreases |s|
  {
    if s == "" then []
    else if IsSpace(s[0]) then Split(s[1..])
    else [s[..WordLength(s)]] + Split(s[WordLength(s)..])
  }

  lemma WordLengthIs(w: Bytes, s: Bytes)
    requires IsWord(w) && (s == "" || IsSpace(s[0]))
    ensures WordLength(w + s) == |w|
  {
    assert forall j :: 0 <= j < |w| ==> (w + s)[j] == w[j];
    assert |s| > 0 ==> (w + s)[|w|] == s[0];
  }

  lemma SplitFirst(w: Bytes, s: Bytes)
    requires IsWord(w) && (s == "" || IsSpace(s[0]))
    ensures Split(w + s) == [w] + Split(s)
  {
    WordLengthIs(w, s);
    assert (w + s)[0] == w[0];
    assert (w + s)[..|w|] == w && (w + s)[|w|..] == s;
  }

  function Digit(d: nat): char
    requires d < 10
  {
    '0' + d as char
  }

  function Decimal(n: nat): (s: Bytes)
    ensures IsWord(s) && s[0] != '-'
  {
    if n < 10 then [Digit(n)] else Decimal(n / 10) + [Digit(n % 10)]
  }

  function ParseNat(s: Bytes): Option<nat> {
    if s == "" then None
    else
      var c := s[|s| - 1];
      if !('0' <= c <= '9') then None
      else if |s| == 1 then Some((c - '0') as nat)
      else
        match ParseNat(s[..|s| - 1])
        case None => None
        case Some(n) => Some(10 * n + (c - '0') as nat)
  }

  lemma {:induction false} DecimalParses(n: nat)
    ensures ParseNat(Decimal(n)) == Some(n)
  {
    if n >= 10 {
      DecimalParses(n / 10);
      assert Decimal(n)[..|Decimal(n)| - 1] == Decimal(n / 10);
    }
  }

  function DecimalInt(i: int): Bytes {
    if i < 0 then "-" + Decimal(-i) else Decimal(i)
  }

  function ParseInt(s: Bytes): Option<int> {
    if s != "" && s[0] == '-' then
      var n := ParseNat(s[1..]);
      if n.None? then None
      else
        var i: int := 0 - n.value;
        Some(i)
    else ParseNat(s)
  }

  lemma DecimalIntParses(i: int)
    ensures ParseInt(DecimalInt(i)) == Some(i)
  {
    hide Decimal, ParseNat;
    if i < 0 {
      DecimalParses(-i);
      assert DecimalInt(i)[1..] == Decimal(-i);
    } else {
      DecimalParses(i);
    }
  }

  // ----- Values -----

  /** A Python value to be stored; `Object` is anything that has to be pickled. */
  datatype Value = Str(bytes: Bytes) | Int(i: int) | Long(i: int) | Bool(b: bool) | Object(id: nat)

  const FLAG_PICKLE := 1
  const FLAG_INTEGER := 2
  const FLAG_LONG := 4
  const FLAG_COMPRESSED := 8
  const SERVER_MAX_VALUE_LENGTH := 1024 * 1024

  /** pickle and zlib. */
  datatype Codec = Codec(pickle: nat -> Bytes, unpickle: Bytes -> Option<Value>,
                         compress: Bytes -> Bytes, decompress: Bytes -> Bytes)

  ghost predicate Trusted(c: Codec) {
    && (forall id :: c.unpickle(c.pickle(id)) == Some(Object(id)))
    && forall s :: c.decompress(c.compress(s)) == s
  }

  predicate HasFlag(flags: nat, flag: nat)
    requires flag > 0
  {
    flags / flag % 2 == 1
  }

  datatype StoreInfo = StoreInfo(flags: nat, bytes: Bytes)

  function Plain(c: Codec, v: Value): StoreInfo {
    match v
    case Str(s) => StoreInfo(0, s)
    case Int(i) => StoreInfo(FLAG_INTEGER, DecimalInt(i))
    case Bool(b) => StoreInfo(FLAG_INTEGER, if b then "1" else "0")
    case Long(i) => StoreInfo(FLAG_LONG, DecimalInt(i))
    case Object(id) => StoreInfo(FLAG_PICKLE, c.pickle(id))
  }

  /** The flags and bytes to store for a value; a value that is too long is not stored. */
  function ValToStoreInfo(c: Codec, v: Value, minCompress: nat): Option<StoreInfo> {
    var plain := Plain(c, v);
    var threshold := if v.Str? || v.Object? then minCompress else 0;
    var packed :=
      if threshold != 0 && |plain.bytes| > threshold && |c.compress(plain.bytes)| < |plain.bytes|
      then StoreInfo(plain.flags + FLAG_COMPRESSED, c.compress(plain.bytes))
      else plain;
    if |packed.bytes| >= SERVER_MAX_VALUE_LENGTH then None else Some(packed)
  }

  /** Flagged bytes read as a value; or a pickle that does not load, for which None is returned;
      or bytes or flags that raise. */
  datatype Decoded = Read(value: Value) | Unloadable | Raises

  function Decode(c: Codec, flags: nat, raw: Bytes): Decoded {
    var buf := if HasFlag(flags, FLAG_COMPRESSED) then c.decompress(raw) else raw;
    if flags == 0 || flags == FLAG_COMPRESSED then Read(Str(buf))
    else if HasFlag(flags, FLAG_INTEGER) then
      match ParseInt(buf) case None => Raises case Some(i) => Read(Int(i))
    else if HasFlag(flags, FLAG_LONG) then
      match ParseInt(buf) case None => Raises case Some(i) => Read(Long(i))
    else if HasFlag(flags, FLAG_PICKLE) then
      match c.unpickle(buf) case None => Unloadable case Some(v) => Read(v)
    else Raises
  }

  lemma FlagsTell(flags: nat)
    ensures flags in {0, FLAG_PICKLE, FLAG_INTEGER, FLAG_LONG} ==>
      HasFlag(flags + FLAG_COMPRESSED, FLAG_COMPRESSED) && !HasFlag(flags, FLAG_COMPRESSED)
    ensures HasFlag(FLAG_INTEGER, FLAG_INTEGER) && HasFlag(FLAG_LONG, FLAG_LONG) && !HasFlag(FLAG_LONG, FLAG_INTEGER)
    ensures forall f :: f in {FLAG_PICKLE, FLAG_PICKLE + FLAG_COMPRESSED} ==>
      HasFlag(f, FLAG_PICKLE) && !HasFlag(f, FLAG_INTEGER) && !HasFlag(f, FLAG_LONG)
  {
  }

  lemma BoolParses(b: bool)
    ensures ParseInt(if b then "1" else "0") == Some(if b then 1 else 0)
  {
  }

  /** Whatever is stored comes back, exactly if it is not a bool: those come back as ints. */
  lemma StoredValueComesBack(c: Codec, v: Value, minCompress: nat)
    requires Trusted(c)
    ensures var s := ValToStoreInfo(c, v, minCompress);
      s.Some? ==> (Decode(c, s.value.flags, s.value.bytes) == Read(v) <==> !v.Bool?)
  {
    hide HasFlag, ParseInt, DecimalInt;
    FlagsTell(0);
    FlagsTell(FLAG_PICKLE);
    FlagsTell(FLAG_INTEGER);
    FlagsTell(FLAG_LONG);
    match v
    case Str(s) =>
    case Object(id) =>
    case Bool(b) => BoolParses(b);
    case Int(i) => DecimalIntParses(i);
    case Long(i) => DecimalIntParses(i);
  }

  /** A value is stored if and only if it, or what compressing makes of it, takes less than a
      megabyte; it is compressed if it is no number and longer than the minimum that was set,
      and only if that makes it shorter. The flags say what it is and whether it is compressed. */
  lemma StoredExactly(c: Codec, v: Value, minCompress: nat)
    ensures var s, plain := ValToStoreInfo(c, v, minCompress), Plain(c, v).bytes;
            var short := c.compress(plain);
            var tried := (v.Str? || v.Object?) && minCompress > 0 && |plain| > minCompress && |short| < |plain|;
            && (s.Some? <==> |plain| < 1048576 || (tried && |short| < 1048576))
            && (s.Some? ==> s.value.bytes == if tried then short else plain)
            && (s.Some? ==> s.value.flags == (match v
                  case Str(_) => 0
                  case Object(_) => 1
                  case Int(_) => 2
                  case Bool(_) => 2
                  case Long(_) => 4) + if tried then 8 else 0)
  {
  }

  // ----- The reply to a get -----

  /** What a get comes to: a value; None, because the key is missing or because its pickle does
      not load; or an error, of the connection or another. */
  datatype Outcome = Got(value: Value) | Missing | Unreadable | ConnectionError | Crash

  datatype Reply = Reply(outcome: Outcome, rest: Bytes, dead: bool)

  function ValueHeader(key: Bytes, flags: nat, length: nat): Bytes {
    "VALUE" + " " + key + " " + Decimal(flags) + " " + Decimal(length)
  }

  /** What the server sends for a key it has. */
  function ValueReply(key: Bytes, s: StoreInfo): Bytes {
    ValueHeader(key, s.flags, |s.bytes|) + CRLF + s.bytes + CRLF + "END" + CRLF
  }

  /** The flags and the length of a header line. */
  function ParseHeader(text: Bytes): Option<(nat, nat)> {
    var parts := Split(text);
    if |parts| != 4 then None
    else match ParseNat(parts[2])
      case None => None
      case Some(flags) =>
        match ParseNat(parts[3])
        case None => None
        case Some(length) => Some((flags, length))
  }

  predicate IsValueLine(text: Bytes) {
    "VALUE" <= text
  }

  /** What the client makes of a stream. Of the line after the value it only takes note. */
  function ParseReply(c: Codec, s: Bytes): Reply {
    var header := NextLine(s);
    if !IsValueLine(header.text) then Reply(Missing, header.rest, header.closed)
    else match ParseHeader(header.text)
      case None => Reply(Crash, header.rest, header.closed)
      case Some((flags, length)) =>
        if header.closed then Reply(Crash, "", true)
        else if |header.rest| < length + 2 then Reply(ConnectionError, "", true)
        else
          var rest := header.rest[length + 2..];
          match Decode(c, flags, header.rest[..length])
          case Raises => Reply(Crash, rest, false)
          case Unloadable => Reply(Unreadable, NextLine(rest).rest, NextLine(rest).closed)
          case Read(v) => Reply(Got(v), NextLine(rest).rest, NextLine(rest).closed)
  }

  lemma HeaderSplits(key: Bytes, flags: nat, length: nat)
    requires IsWord(key)
    ensures Split(ValueHeader(key, flags, length)) == ["VALUE", key, Decimal(flags), Decimal(length)]
  {
    hide Split, Decimal;
    var l := Decimal(length);
    var f := Decimal(flags) + " " + l;
    var k := key + " " + f;
    assert ValueHeader(key, flags, length) == "VALUE" + (" " + k);
    SplitFirst("VALUE", " " + k);
    SplitSpace(k);
    assert k == key + (" " + f);
    SplitFirst(key, " " + f);
    SplitSpace(f);
    assert f == Decimal(flags) + (" " + l);
    SplitFirst(Decimal(flags), " " + l);
    SplitSpace(l);
    assert l == l + "";
    SplitFirst(l, "");
    SplitEmpty();
  }

  lemma SplitSpace(s: Bytes)
    ensures Split(" " + s) == Split(s)
  {
    assert (" " + s)[1..] == s;
  }

  lemma SplitEmpty()
    ensures Split("") == []
  {
  }

  lemma WordHasNoTerminator(w: Bytes)
    requires IsWord(w)
    ensures NoTerminator(w)
  {
  }

  lemma HeaderHasNoTerminator(key: Bytes, flags: nat, length: nat)
    requires IsWord(key)
    ensures NoTerminator(ValueHeader(key, flags, length))
  {
    hide Decimal;
    WordHasNoTerminator(key);
    WordHasNoTerminator(Decimal(flags));
    WordHasNoTerminator(Decimal(length));
  }

  lemma HeaderParses(key: Bytes, flags: nat, length: nat)
    requires IsWord(key)
    ensures ParseHeader(ValueHeader(key, flags, length)) == Some((flags, length))
    ensures IsValueLine(ValueHeader(key, flags, length))
  {
    hide Split, Decimal, ParseNat;
    HeaderSplits(key, flags, length);
    DecimalParses(flags);
    DecimalParses(length);
  }

  /** Any bytes come through, CRLF and END among them, and exactly the reply is consumed. */
  lemma ReplyParses(c: Codec, key: Bytes, s: StoreInfo, rest: Bytes)
    requires IsWord(key)
    ensures ParseReply(c, ValueReply(key, s) + rest) ==
      match Decode(c, s.flags, s.bytes)
      case Read(v) => Reply(Got(v), rest, false)
      case Unloadable => Reply(Unreadable, rest, false)
      case Raises => Reply(Crash, "END" + CRLF + rest, false)
  {
    hide ValueHeader, ParseHeader, IsValueLine, Decode, NextLine;
    var header := ValueHeader(key, s.flags, |s.bytes|);
    var tail := "END" + CRLF + rest;
    var body := s.bytes + CRLF + tail;
    assert ValueReply(key, s) + rest == header + CRLF + body;
    HeaderHasNoTerminator(key, s.flags, |s.bytes|);
    LineOf(header, body);
    HeaderParses(key, s.flags, |s.bytes|);
    assert body[..|s.bytes|] == s.bytes;
    assert body[|s.bytes| + 2..] == tail;
    LineOf("END", rest);
  }

  /** A key the server does not have. */
  lemma EndParses(c: Codec, rest: Bytes)
    ensures ParseReply(c, "END" + CRLF + rest) == Reply(Missing, rest, false)
  {
    LineOf("END", rest);
  }

  /** From the value to the store, through the server's reply and back. */
  lemma RoundTrip(c: Codec, key: Bytes, v: Value, minCompress: nat, rest: Bytes)
    requires Trusted(c) && IsWord(key) && !v.Bool? && ValToStoreInfo(c, v, minCompress).Some?
    ensures ParseReply(c, ValueReply(key, ValToStoreInfo(c, v, minCompress).value) + rest) == Reply(Got(v), rest, false)
  {
    hide ValToStoreInfo, Decode, ValueReply, ParseReply;
    StoredValueComesBack(c, v, minCompress);
    ReplyParses(c, key, ValToStoreInfo(c, v, minCompress).value, rest);
  }

  // ----- The connection -----

  function Flat(chunks: seq<Bytes>): Bytes {
    if chunks == [] then "" else chunks[0] + Flat(chunks[1..])
  }

  ghost predicate NonEmpty(chunks: seq<Bytes>) {
    forall i :: 0 <= i < |chunks| ==> chunks[i] != ""
  }

  /** A server connection: what has been read ahead, and the chunks that the socket will
      deliver before the server closes it. */
  class Host {
    var buffer: Bytes
    var chunks: seq<Bytes>
    var dead: bool

    constructor (chunks: seq<Bytes>)
      requires NonEmpty(chunks)
      ensures Valid() && Stream() == Flat(chunks) && !dead
    {
      this.chunks, buffer, dead := chunks, "", false;
    }

    ghost predicate Valid()
      reads this
    {
      NonEmpty(chunks)
    }

    ghost function Stream(): Bytes
      reads this
    {
      buffer + Flat(chunks)
    }

    /** The empty string means that the connection is closed. */
    method SocketRecv() returns (data: Bytes)
      requires Valid()
      modifies this`chunks
      ensures Valid()
      ensures old(chunks) == [] ==> data == "" && chunks == []
      ensures old(chunks) != [] ==> data != "" && |chunks| < |old(chunks)| && data + Flat(chunks) == Flat(old(chunks))
    {
      if chunks == [] {
        return "";
      }
      data := chunks[0];
      chunks := chunks[1..];
    }

    method ReadLine() returns (line: Bytes)
      requires Valid() && !dead
      modifies this
      ensures Valid()
      ensures Line(line, Stream(), dead) == NextLine(old(Stream()))
    {
      hide Flat, Find, NextLine;
      var buf := buffer;
      var index := Find(buf);
      while index < 0
        invariant Valid() && !dead
        invariant buf + Flat(chunks) == old(Stream()) && index == Find(buf)
        decreases |chunks|
      {
        var data := SocketRecv();
        if data == "" {
          dead := true;
          break;
        }
        assert buf + (data + Flat(chunks)) == (buf + data) + Flat(chunks);
        buf := buf + data;
        index := Find(buf);
      }
      if index >= 0 {
        LineFound(buf, Flat(chunks));
        buffer := buf[index + 2..];
        line := buf[..index];
      } else {
        FlatNothing();
        assert buf + "" == buf;
        LineClosed(buf);
        buffer := "";
        line := buf;
      }
    }

    /** Data lost to a closed connection is not given back. */
    method Recv(length: nat) returns (data: Option<Bytes>)
      requires Valid() && !dead
      modifies this`buffer, this`chunks
      ensures Valid()
      ensures data.Some? <==> |old(Stream())| >= length
      ensures data.Some? ==> data.value == old(Stream())[..length] && Stream() == old(Stream())[length..]
    {
      hide Flat;
      var buf := buffer;
      while |buf| < length
        invariant Valid() && buf + Flat(chunks) == old(Stream())
        decreases |chunks|
      {
        var more := SocketRecv();
        assert buf + (more + Flat(chunks)) == (buf + more) + Flat(chunks);
        buf := buf + more;
        if |more| == 0 {
          FlatNothing();
          return None;
        }
      }
      buffer := buf[length..];
      data := Some(buf[..length]);
    }

    /** Whatever the chunks, the reply is that of the whole stream. */
    method Get(c: Codec) returns (outcome: Outcome)
      requires Valid() && !dead
      modifies this
      ensures Valid()
      ensures outcome == ParseReply(c, old(Stream())).outcome && dead == ParseReply(c, old(Stream())).dead
      ensures !dead ==> Stream() == ParseReply(c, old(Stream())).rest
    {
      hide Flat, NextLine, Decode, ParseHeader;
      var line := ReadLine();
      if !IsValueLine(line) {
        return Missing;
      }
      var header := ParseHeader(line);
      if header.None? || dead {
        return Crash;
      }
      var (flags, length) := header.value;
      ghost var body := Stream();
      var data := Recv(length + 2);
      if data.None? {
        dead := true;
        return ConnectionError;
      }
      assert data.value[..length] == body[..length];
      var value := Decode(c, flags, data.value[..length]);
      if value.Raises? {
        return Crash;
      }
      var _ := ReadLine();
      return if value.Read? then Got(value.value) else Unreadable;
    }
  }

  lemma FlatNothing()
    ensures Flat([]) == ""
  {
  }
}
