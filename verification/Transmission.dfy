/** Framed messages over a byte stream (posix/lib/transmission-protocols.c).

    A message is sent as its length, four bytes with the highest first, and its bytes; length 0 ends the transmission.
    Each write may accept, and each read may deliver, any part of what is asked for; a read delivers nothing only when
    the sender has closed the stream and all bytes are read. The four bytes of a length are transferred whole. */
module Transmission {
  import opened Bytes
  import opened Numbers
  import opened Sequences

  const MAX_LENGTH: nat := 0x1_0000_0000

  // ---------------------------------------------------------------- frames

  /** htonl */
  function Header(n: nat): (h: seq<Byte>)
    requires n < MAX_LENGTH
    ensures |h| == 4
  {
    [n / 0x100_0000, n / 0x1_0000 % 256, n / 256 % 256, n % 256]
  }

  /** ntohl */
  function Length(h: seq<Byte>): (n: nat)
    requires |h| == 4
    ensures n < MAX_LENGTH
  {
    0x100_0000 * h[0] as int + 0x1_0000 * h[1] as int + 256 * h[2] as int + h[3] as int
  }

  lemma LengthOfHeader(n: nat)
    requires n < 4294967296
    ensures Length(Header(n)) == n
  {
    HeaderBytes(n);
  }

  /** Four bytes, the highest first. */
  lemma HeaderBytes(n: nat)
    requires n < 4294967296
    ensures var h := Header(n); 16777216 * h[0] as int + 65536 * h[1] as int + 256 * h[2] as int + h[3] as int == n
  {
    var a := n / 256;
    var b := a / 256;
    assert n / 0x1_0000 == b && n / 0x100_0000 == b / 256;
  }

  function Frame(m: seq<Byte>): seq<Byte>
    requires |m| < MAX_LENGTH
  {
    Header(|m|) + m
  }

  lemma FrameBytes(m: seq<Byte>)
    requires |m| < 4294967296
    ensures |Frame(m)| == 4 + |m| && Frame(m)[4..] == m
    ensures var f := Frame(m); 16777216 * f[0] as int + 65536 * f[1] as int + 256 * f[2] as int + f[3] as int == |m|
  {
    HeaderBytes(|m|);
  }

  /** What can be read from the front of a stream. */
  datatype Parsed =
    | Message(m: seq<Byte>, rest: seq<Byte>)
    | NoHeader                           // fewer than four bytes before the end
    | Premature(part: seq<Byte>)         // the stream ends within the message

  function Parse(s: seq<Byte>): Parsed {
    if |s| < 4 then NoHeader
    else if |s| < 4 + Length(s[..4]) then Premature(s[4..])
    else Message(s[4..4 + Length(s[..4])], s[4 + Length(s[..4])..])
  }

  /** What the bytes on a stream mean: four bytes of length, the highest first, and as many bytes. */
  lemma ParseBytes(s: seq<Byte>)
    ensures |s| < 4 ==> Parse(s) == NoHeader
    ensures |s| >= 4 ==> var n := 16777216 * s[0] as int + 65536 * s[1] as int + 256 * s[2] as int + s[3] as int;
      Parse(s) == if |s| < 4 + n then Premature(s[4..]) else Message(s[4..4 + n], s[4 + n..])
  {
  }

  lemma ParseFrame(m: seq<Byte>, rest: seq<Byte>)
    requires |m| < MAX_LENGTH
    ensures Parse(Frame(m) + rest) == Message(m, rest)
  {
    LengthOfHeader(|m|);
    var s := Frame(m) + rest;
    assert s[..4] == Header(|m|);
    assert s[4..4 + |m|] == m && s[4 + |m|..] == rest;
  }

  // ---------------------------------------------------------------- the stream

  class Stream {
    var bytes: seq<Byte>    // sent and not yet received

    constructor ()
      ensures bytes == []
    {
      bytes := [];
    }

    /** write() of some part of data */
    method Write(data: seq<Byte>) returns (n: nat)
      requires data != []
      modifies this
      ensures 0 < n <= |data| && bytes == old(bytes) + data[..n]
    {
      n :| 0 < n <= |data|;
      bytes := bytes + data[..n];
    }

    method WriteWhole(data: seq<Byte>)
      modifies this
      ensures bytes == old(bytes) + data
    {
      bytes := bytes + data;
    }

    /** read() of at most max bytes to position pos of the buffer */
    method Read(buffer: array<Byte>, pos: nat, max: nat) returns (n: nat)
      requires pos + max <= buffer.Length
      modifies this, buffer
      ensures n <= max && n <= |old(bytes)| && (n == 0 <==> max == 0 || old(bytes) == [])
      ensures buffer[pos..pos + n] == old(bytes)[..n] && bytes == old(bytes)[n..]
      ensures forall k :: 0 <= k < pos || pos + n <= k < buffer.Length ==> buffer[k] == old(buffer[k])
    {
      var most := Min(max, |bytes|);
      n :| 0 <= n <= most && (n == 0 ==> most == 0);
      var data := bytes[..n];
      forall k | 0 <= k < n { buffer[pos + k] := data[k]; }
      bytes := bytes[n..];
      assert buffer[pos..pos + n] == data;
    }

    /** read() of the four bytes of a length, or of what is left */
    method ReadHeader() returns (header: seq<Byte>)
      modifies this
      ensures var k := Min(4, |old(bytes)|); header == old(bytes)[..k] && bytes == old(bytes)[k..]
    {
      var k := Min(4, |bytes|);
      header := bytes[..k];
      bytes := bytes[k..];
    }
  }

  // ---------------------------------------------------------------- sending

  /** strlen */
  method StrLen(str: seq<Byte>) returns (len: nat)
    requires 0 in str
    ensures len < |str| && str[len] == 0 && 0 !in str[..len]
  {
    len := 0;
    while str[len] != 0
      invariant len < |str| && 0 !in str[..len] && 0 in str
      decreases |str| - len
    {
      assert str == str[..len] + [str[len]] + str[len + 1..];
      assert str[..len + 1] == str[..len] + [str[len]];
      len := len + 1;
    }
  }

  /** The message that write_string sends for str: the first len bytes, or all before the first zero if len is -1. */
  ghost predicate IsMessage(str: seq<Byte>, len: int, m: seq<Byte>) {
    m <= str && if len == -1 then |m| < |str| && str[|m|] == 0 && 0 !in m else |m| == len
  }

  lemma MessageUnique(str: seq<Byte>, len: int, m: seq<Byte>, k: seq<Byte>)
    requires IsMessage(str, len, m) && IsMessage(str, len, k)
    ensures m == k
  {
    assert forall i :: 0 <= i < |k| ==> k[i] == str[i] && k[i] in k;
    assert forall i :: 0 <= i < |m| ==> m[i] == str[i] && m[i] in m;
    assert m == str[..|m|] && k == str[..|k|];
  }

  /** write_string: sends the frame of the message, in any number of pieces, or nothing if it is too long. */
  method WriteString(stream: Stream, str: seq<Byte>, len: int) returns (ok: bool, ghost m: seq<Byte>)
    requires if len == -1 then 0 in str else 0 <= len <= |str|
    modifies stream
    ensures IsMessage(str, len, m) && (ok <==> |m| < 4294967296)
    ensures stream.bytes == if ok then old(stream.bytes) + Frame(m) else old(stream.bytes)
    ensures ok ==> |stream.bytes| == |old(stream.bytes)| + 4 + |m|
    ensures ok ==> var h := stream.bytes[|old(stream.bytes)|..];
      16777216 * h[0] as int + 65536 * h[1] as int + 256 * h[2] as int + h[3] as int == |m| && h[4..] == m
  {
    var n: nat;
    if len == -1 {
      n := StrLen(str);
    } else {
      n := len;
    }
    m := str[..n];
    var ulen := n % MAX_LENGTH;
    if ulen != n {
      return false, m;
    }
    ok := true;
    FrameBytes(m);
    stream.WriteWhole(Header(ulen));
    WriteAll(stream, str, n);
    assert stream.bytes[|old(stream.bytes)|..] == Frame(m);
  }

  /** The loop that writes the first n bytes of str. */
  method WriteAll(stream: Stream, str: seq<Byte>, n: nat)
    requires n <= |str|
    modifies stream
    ensures stream.bytes == old(stream.bytes) + str[..n]
  {
    var ptr: nat, rest: nat := 0, n;
    while rest > 0
      invariant ptr + rest == n && stream.bytes == old(stream.bytes) + str[..ptr]
    {
      var partial := stream.Write(str[ptr..ptr + rest]);
      SplitPrefix(str, ptr, rest, partial);
      rest := rest - partial;
      ptr := ptr + partial;
    }
  }

  lemma SplitPrefix(str: seq<Byte>, ptr: nat, rest: nat, partial: nat)
    requires ptr + rest <= |str| && partial <= rest
    ensures str[..ptr + partial] == str[..ptr] + str[ptr..ptr + rest][..partial]
  {
    assert str[ptr..ptr + rest][..partial] == str[ptr..ptr + partial];
  }

  method WriteEot(stream: Stream)
    modifies stream
    ensures stream.bytes == old(stream.bytes) + Frame([])
  {
    var ok, m := WriteString(stream, [0], 0);
    assert m == [];
  }

  // ---------------------------------------------------------------- receiving

  /** How a read ends: with a length, or with the process. */
  datatype Outcome = Returned(ulen: nat) | Died

  function Concat(chunks: seq<seq<Byte>>): seq<Byte> {
    if chunks == [] then [] else Concat(chunks[..|chunks| - 1]) + chunks[|chunks| - 1]
  }

  /** read_string_fragmentable: hands the message to the consumer in chunks that fit into the buffer. A buffer of size
      0 cannot receive any message but the empty one. */
  method ReadStringFragmentable(stream: Stream, buffer: array<Byte>) returns (outcome: Outcome, chunks: seq<seq<Byte>>)
    modifies stream, buffer
    ensures forall k :: 0 <= k < |chunks| ==> 0 < |chunks[k]| <= buffer.Length
    ensures match Parse(old(stream.bytes))
      case NoHeader => outcome == Died && chunks == []
      case Premature(part) => outcome == Died && Concat(chunks) == (if buffer.Length > 0 then part else [])
      case Message(m, rest) =>
        if m == [] || buffer.Length > 0 then outcome == Returned(|m|) && Concat(chunks) == m && stream.bytes == rest
        else outcome == Died && chunks == []
    ensures var s := old(stream.bytes); |s| >= 4 && buffer.Length > 0 ==>
      var n := 16777216 * s[0] as int + 65536 * s[1] as int + 256 * s[2] as int + s[3] as int;
      |s| >= 4 + n ==> outcome == Returned(n) && Concat(chunks) == s[4..4 + n] && stream.bytes == s[4 + n..]
  {
    ParseBytes(stream.bytes);
    chunks := [];
    var header := stream.ReadHeader();
    if |header| != 4 {
      return Died, chunks;
    }
    var ulen := Length(header);
    if ulen == 0 {
      return Returned(0), chunks;
    }
    var ok;
    ok, chunks := Consume(stream, buffer, ulen);
    outcome := if ok then Returned(ulen) else Died;
  }

  /** Passes on ulen bytes, or all there are if the stream ends before. */
  method Consume(stream: Stream, buffer: array<Byte>, ulen: nat) returns (ok: bool, chunks: seq<seq<Byte>>)
    requires ulen > 0
    modifies stream, buffer
    ensures forall k :: 0 <= k < |chunks| ==> 0 < |chunks[k]| <= buffer.Length
    ensures ok <==> buffer.Length > 0 && |old(stream.bytes)| >= ulen
    ensures ok ==> Concat(chunks) == old(stream.bytes)[..ulen] && stream.bytes == old(stream.bytes)[ulen..]
    ensures !ok ==> Concat(chunks) == if buffer.Length > 0 then old(stream.bytes) else []
    ensures !ok && buffer.Length == 0 ==> chunks == []
  {
    chunks := [];
    ghost var payload := stream.bytes;
    assert Concat(chunks) == payload[..0];
    hide Concat;
    var rest: nat := ulen;
    ghost var done: nat := 0;
    while rest > 0
      invariant done + rest == ulen && done <= |payload| && stream.bytes == payload[done..]
      invariant Concat(chunks) == payload[..done] && (buffer.Length == 0 ==> chunks == [] && done == 0)
      invariant forall k :: 0 <= k < |chunks| ==> 0 < |chunks[k]| <= buffer.Length
    {
      var readLen := Min(rest, buffer.Length);
      ghost var before := stream.bytes;
      var received := stream.Read(buffer, 0, readLen);
      if received == 0 {
        return false, chunks;
      }
      ConcatAppend(chunks, buffer[..received]);
      NextPart(payload, done, received, before);
      chunks := chunks + [buffer[..received]];
      rest := rest - received;
      done := done + received;
    }
    ok := true;
  }

  /** The chunks in their order, without anything between them. */
  lemma {:induction false} ConcatFirst(chunk: seq<Byte>, rest: seq<seq<Byte>>)
    ensures Concat([]) == [] && Concat([chunk] + rest) == chunk + Concat(rest)
  {
    if rest == [] {
      assert [chunk] + rest == [chunk] && [chunk][..0] == [];
    } else {
      var front, last := rest[..|rest| - 1], rest[|rest| - 1];
      ConcatFirst(chunk, front);
      assert ([chunk] + rest)[..|rest|] == [chunk] + front;
      assert ([chunk] + rest)[|rest|] == last;
      assert Concat([chunk] + rest) == Concat([chunk] + front) + last;
      hide Concat;
      Associative(chunk, Concat(front), last);
    }
  }

  lemma ConcatAppend(chunks: seq<seq<Byte>>, chunk: seq<Byte>)
    ensures Concat(chunks + [chunk]) == Concat(chunks) + chunk
  {
    assert (chunks + [chunk])[..|chunks|] == chunks;
  }

  lemma NextPart(payload: seq<Byte>, i: nat, n: nat, left: seq<Byte>)
    requires i + n <= |payload| && left == payload[i..]
    ensures payload[..i + n] == payload[..i] + left[..n] && left[n..] == payload[i + n..]
  {
  }

  /** read_and_store_string: returns the message with a zero byte behind it in a buffer of its own, and 0 if the stream
      ends before a length. */
  method ReadAndStoreString(stream: Stream) returns (outcome: Outcome, result: array<Byte>)
    modifies stream
    ensures fresh(result)
    ensures match Parse(old(stream.bytes))
      case NoHeader => outcome == Returned(0)
      case Premature(part) => outcome == Died
      case Message(m, rest) => outcome == Returned(|m|) && result[..] == m + [0] && stream.bytes == rest
    ensures var s := old(stream.bytes); |s| >= 4 ==>
      var n := 16777216 * s[0] as int + 65536 * s[1] as int + 256 * s[2] as int + s[3] as int;
      |s| >= 4 + n ==> outcome == Returned(n) && result[..] == s[4..4 + n] + [0] && stream.bytes == s[4 + n..]
  {
    ParseBytes(stream.bytes);
    result := new Byte[1](_ => 0);
    var header := stream.ReadHeader();
    if |header| != 4 {
      return Returned(0), result;
    }
    var ulen := Length(header);
    if ulen == 0 {
      return Returned(0), result;
    }
    result := new Byte[ulen + 1](_ => 0);
    var ok := Store(stream, result, ulen);
    outcome := if ok then Returned(ulen) else Died;
  }

  /** Fills the buffer before its last byte. */
  method Store(stream: Stream, buffer: array<Byte>, ulen: nat) returns (ok: bool)
    requires buffer.Length == ulen + 1 && buffer[ulen] == 0
    modifies stream, buffer
    ensures ok <==> |old(stream.bytes)| >= ulen
    ensures ok ==> buffer[..] == old(stream.bytes)[..ulen] + [0] && stream.bytes == old(stream.bytes)[ulen..]
  {
    ghost var payload := stream.bytes;
    var ptr: nat, rest: nat := 0, ulen;
    while rest > 0
      invariant ptr + rest == ulen < buffer.Length && ptr <= |payload| && stream.bytes == payload[ptr..]
      invariant buffer[..ptr] == payload[..ptr] && buffer[ulen] == 0
    {
      ghost var before := stream.bytes;
      ghost var stored := buffer[..ptr];
      var received := stream.Read(buffer, ptr, rest);
      if received == 0 {
        return false;
      }
      NextPart(payload, ptr, received, before);
      assert buffer[..ptr] == stored;
      assert buffer[..ptr + received] == buffer[..ptr] + buffer[ptr..ptr + received];
      rest := rest - received;
      ptr := ptr + received;
    }
    assert buffer[..] == buffer[..ulen] + [buffer[ulen]];
    ok := true;
  }

  /** read_string: hands the whole message to the consumer at once; the empty message is not consumed. */
  method ReadString(stream: Stream) returns (outcome: Outcome, chunks: seq<seq<Byte>>)
    modifies stream
    ensures match Parse(old(stream.bytes))
      case NoHeader => outcome == Returned(0) && chunks == []
      case Premature(part) => outcome == Died && chunks == []
      case Message(m, rest) =>
        outcome == Returned(|m|) && chunks == (if m == [] then [] else [m]) && stream.bytes == rest
    ensures var s := old(stream.bytes); |s| >= 4 ==>
      var n := 16777216 * s[0] as int + 65536 * s[1] as int + 256 * s[2] as int + s[3] as int;
      |s| >= 4 + n ==> outcome == Returned(n) && chunks == (if n == 0 then [] else [s[4..4 + n]])
                       && stream.bytes == s[4 + n..]
  {
    ParseBytes(stream.bytes);
    var buffer;
    outcome, buffer := ReadAndStoreString(stream);
    chunks := [];
    if outcome.Returned? && outcome.ulen > 0 {
      chunks := [buffer[..outcome.ulen]];
    }
  }

  // ---------------------------------------------------------------- whole transmissions

  ghost predicate Sendable(msgs: seq<seq<Byte>>) {
    forall k :: 0 <= k < |msgs| ==> 0 < |msgs[k]| < MAX_LENGTH
  }

  function Frames(msgs: seq<seq<Byte>>): seq<Byte>
    requires forall k :: 0 <= k < |msgs| ==> |msgs[k]| < MAX_LENGTH
  {
    if msgs == [] then [] else Frames(msgs[..|msgs| - 1]) + Frame(msgs[|msgs| - 1])
  }

  /** All messages and the end of the transmission. */
  function Encode(msgs: seq<seq<Byte>>): seq<Byte>
    requires forall k :: 0 <= k < |msgs| ==> |msgs[k]| < MAX_LENGTH
  {
    Frames(msgs) + Frame([])
  }

  lemma {:induction false} FramesFront(msgs: seq<seq<Byte>>)
    requires msgs != [] && forall k :: 0 <= k < |msgs| ==> |msgs[k]| < MAX_LENGTH
    ensures Frames(msgs) == Frame(msgs[0]) + Frames(msgs[1..])
  {
    hide Frame;
    if |msgs| == 1 {
      assert msgs[..0] == [] && msgs[1..] == [];
    } else {
      var front, last := msgs[..|msgs| - 1], msgs[|msgs| - 1];
      FramesFront(front);
      assert front[1..] == msgs[1..][..|msgs| - 2];
      Associative(Frame(msgs[0]), Frames(front[1..]), Frame(last));
    }
  }

  lemma NoFrames()
    ensures Frames([]) == []
  {
  }

  /** The frames in order, and four zero bytes at the end. */
  lemma EncodeFrames(m: seq<Byte>, msgs: seq<seq<Byte>>)
    requires |m| < MAX_LENGTH && forall k :: 0 <= k < |msgs| ==> |msgs[k]| < MAX_LENGTH
    ensures Encode([]) == [0, 0, 0, 0] && Encode([m] + msgs) == Frame(m) + Encode(msgs)
  {
    FramesFront([m] + msgs);
    assert ([m] + msgs)[1..] == msgs;
    FrameBytes([]);
    hide Frames;
    Associative(Frame(m), Frames(msgs), Frame([]));
    NoFrames();
  }

  lemma FramesBack(start: seq<Byte>, msgs: seq<seq<Byte>>, i: nat, m: seq<Byte>)
    requires i < |msgs| && (forall k :: 0 <= k < |msgs| ==> |msgs[k]| < MAX_LENGTH) && IsMessage(msgs[i], |msgs[i]|, m)
    ensures m == msgs[i] && start + Frames(msgs[..i]) + Frame(m) == start + Frames(msgs[..i + 1])
  {
    assert msgs[..i + 1][..i] == msgs[..i];
    Associative(start, Frames(msgs[..i]), Frame(msgs[i]));
  }

  /** A sender of whole messages. */
  method Send(stream: Stream, msgs: seq<seq<Byte>>)
    requires forall k :: 0 <= k < |msgs| ==> |msgs[k]| < MAX_LENGTH
    modifies stream
    ensures stream.bytes == old(stream.bytes) + Encode(msgs)
  {
    hide Frame, Frames;
    ghost var start := stream.bytes;
    NoFrames();
    for i := 0 to |msgs|
      invariant stream.bytes == start + Frames(msgs[..i])
    {
      var ok, m := WriteString(stream, msgs[i], |msgs[i]|);
      FramesBack(start, msgs, i, m);
    }
    WriteEot(stream);
    assert msgs[..|msgs|] == msgs;
    Associative(start, Frames(msgs), Frame([]));
  }

  /** A receiver that reads until it gets length 0 gets exactly the messages sent, however reads and writes split
      them. */
  method Receive(stream: Stream, ghost msgs: seq<seq<Byte>>, ghost rest: seq<Byte>) returns (received: seq<seq<Byte>>)
    requires Sendable(msgs) && stream.bytes == Encode(msgs) + rest
    modifies stream
    ensures received == msgs && stream.bytes == rest
  {
    received := [];
    var ulen: nat := 1;
    while ulen > 0
      invariant |received| <= |msgs| && received == msgs[..|received|]
      invariant ulen > 0 ==> stream.bytes == Encode(msgs[|received|..]) + rest
      invariant ulen == 0 ==> received == msgs && stream.bytes == rest
      decreases ulen > 0, |msgs| - |received|
    {
      ghost var left := msgs[|received|..];
      EncodeParse(left, rest);
      var outcome, buffer := ReadAndStoreString(stream);
      ulen := outcome.ulen;
      if ulen > 0 {
        assert received + [left[0]] == msgs[..|received| + 1];
        received := received + [buffer[..ulen]];
        assert left[1..] == msgs[|received|..];
      }
    }
  }

  /** The chunks of each message make up that message. */
  ghost predicate Chunked(received: seq<seq<seq<Byte>>>, msgs: seq<seq<Byte>>) {
    |received| <= |msgs| && forall k :: 0 <= k < |received| ==> Concat(received[k]) == msgs[k]
  }

  /** The same for a receiver that passes chunks to a consumer. */
  method ReceiveChunks(stream: Stream, buffer: array<Byte>, ghost msgs: seq<seq<Byte>>, ghost rest: seq<Byte>)
    returns (received: seq<seq<seq<Byte>>>)
    requires Sendable(msgs) && stream.bytes == Encode(msgs) + rest && buffer.Length > 0
    modifies stream, buffer
    ensures |received| == |msgs| && Chunked(received, msgs) && stream.bytes == rest
    ensures forall k, i :: 0 <= k < |received| && 0 <= i < |received[k]| ==> 0 < |received[k][i]| <= buffer.Length
  {
    received := [];
    var ulen: nat := 1;
    while ulen > 0
      invariant Chunked(received, msgs)
      invariant forall k, i :: 0 <= k < |received| && 0 <= i < |received[k]| ==> 0 < |received[k][i]| <= buffer.Length
      invariant ulen > 0 ==> stream.bytes == Encode(msgs[|received|..]) + rest
      invariant ulen == 0 ==> |received| == |msgs| && stream.bytes == rest
      decreases ulen > 0, |msgs| - |received|
    {
      ghost var left := msgs[|received|..];
      EncodeParse(left, rest);
      var outcome, chunks := ReadStringFragmentable(stream, buffer);
      ulen := outcome.ulen;
      if ulen > 0 {
        received := received + [chunks];
        assert left[1..] == msgs[|received|..];
      }
    }
  }

  lemma EncodeParse(msgs: seq<seq<Byte>>, rest: seq<Byte>)
    requires Sendable(msgs)
    ensures Parse(Encode(msgs) + rest) ==
      if msgs == [] then Message([], rest) else Message(msgs[0], Encode(msgs[1..]) + rest)
  {
    if msgs == [] {
      assert Encode(msgs) == Frame([]);
      ParseFrame([], rest);
    } else {
      ParseFrame(msgs[0], Encode(msgs[1..]) + rest);
      FramesFront(msgs);
      assert Encode(msgs) + rest == Frame(msgs[0]) + (Encode(msgs[1..]) + rest);
    }
  }

  /** Different message sequences never look the same on the stream, whatever follows them. */
  lemma {:induction false} EncodeUnique(a: seq<seq<Byte>>, b: seq<seq<Byte>>, x: seq<Byte>, y: seq<Byte>)
    requires Sendable(a) && Sendable(b) && Encode(a) + x == Encode(b) + y
    ensures a == b && x == y
  {
    EncodeParse(a, x);
    EncodeParse(b, y);
    if a != [] && b != [] {
      EncodeUnique(a[1..], b[1..], x, y);
      assert a == [a[0]] + a[1..] && b == [b[0]] + b[1..];
    }
  }
}
