/** Counting byte pairs in files (posix/threads/thread-memory-count-shorts-mutex.c).

    A thread reads its file in chunks of any sizes. A byte left over from one chunk is carried to the front of the
    buffer for the next one, and at the end of an odd file it is paired with a zero byte. */
module ShortCount {
  import opened Bytes
  import opened Sums
  import opened StripedCounter

  const ARRAY_SIZE: nat := 65536

  /** An unsigned short in memory, low byte first. */
  function Short(lo: Byte, hi: Byte): (s: nat)
    ensures s < ARRAY_SIZE
  {
    lo + 256 * hi
  }

  /** The pairs of a file in order, the last one padded with a zero byte. */
  function Shorts(file: seq<Byte>): seq<nat> {
    if |file| == 0 then []
    else if |file| == 1 then [Short(file[0], 0)]
    else [Short(file[0], file[1])] + Shorts(file[2..])
  }

  lemma {:induction false} ShortsAt(file: seq<Byte>, k: nat)
    requires 2 * k < |file|
    ensures k < |Shorts(file)|
    ensures Shorts(file)[k] == file[2 * k] as int + 256 * (if 2 * k + 1 < |file| then file[2 * k + 1] as int else 0)
  {
    if k > 0 { ShortsAt(file[2..], k - 1); }
  }

  lemma {:induction false} ShortsLength(file: seq<Byte>)
    ensures |Shorts(file)| == (|file| + 1) / 2
  {
    if |file| > 1 { ShortsLength(file[2..]); }
  }

  lemma {:induction false} ShortsAppend(a: seq<Byte>, b: seq<Byte>)
    requires |a| % 2 == 0
    ensures Shorts(a + b) == Shorts(a) + Shorts(b)
  {
    if a == [] {
      assert a + b == b;
    } else {
      ShortsAppend(a[2..], b);
      assert (a + b)[2..] == a[2..] + b;
    }
  }

  lemma {:induction false} OccursAppend(a: seq<nat>, b: seq<nat>, ch: nat)
    ensures Occurs(a + b, ch) == Occurs(a, ch) + Occurs(b, ch)
  {
    if b == [] {
      assert a + b == a;
    } else {
      OccursAppend(a, b[..|b| - 1], ch);
      assert (a + b)[..|a + b| - 1] == a + b[..|b| - 1];
    }
  }

  // ---------------------------------------------------------------- what a read of any size brings

  /** A thread between two reads: how far it has read, and the bytes it has carried to the front of its buffer. */
  datatype Reader = Reader(offset: nat, carry: seq<Byte>, eof: bool)

  /** read() returns any number of bytes that fit, and none only at the end of the file. */
  predicate MayRead(file: seq<Byte>, r: Reader, size: nat, room: nat) {
    !r.eof && |r.carry| + size <= room && r.offset + size <= |file| && (size == 0 ==> r.offset == |file|)
  }

  /** The bytes in the buffer, with the padding at the end of the file. */
  function Chunk(file: seq<Byte>, r: Reader, size: nat): seq<Byte>
    requires r.offset + size <= |file|
  {
    r.carry + file[r.offset..r.offset + size] + if size == 0 && |r.carry| > 0 then [0] else []
  }

  /** The part of n bytes that makes up pairs. */
  function Even(n: nat): (e: nat)
    ensures e <= n < e + 2 && e % 2 == 0
  {
    n - n % 2
  }

  /** The pairs that a read of size bytes brings. */
  function Pairs(file: seq<Byte>, r: Reader, size: nat): seq<nat>
    requires r.offset + size <= |file|
  {
    var chunk := Chunk(file, r, size);
    Shorts(chunk[..Even(|chunk|)])
  }

  function AfterRead(file: seq<Byte>, r: Reader, size: nat): Reader
    requires r.offset + size <= |file|
  {
    var chunk := Chunk(file, r, size);
    Reader(r.offset + size, chunk[Even(|chunk|)..], size == 0)
  }

  /** pairs are those of the file up to the carried byte, and at the end all. */
  ghost predicate Tracks(file: seq<Byte>, r: Reader, pairs: seq<nat>) {
    && |r.carry| < 2 && |r.carry| <= r.offset <= |file|
    && (r.eof ==> pairs == Shorts(file))
    && (!r.eof ==> r.carry == file[r.offset - |r.carry|..r.offset])
    && (!r.eof ==> (r.offset - |r.carry|) % 2 == 0 && pairs == Shorts(file[..r.offset - |r.carry|]))
  }

  lemma StartTracks(file: seq<Byte>)
    ensures Tracks(file, Reader(0, [], false), [])
  {
    assert file[..0] == [] && Shorts([]) == [];
    hide Shorts;
  }

  /** However large the read is, its pairs continue those of the file. */
  lemma ReadKeepsTrack(file: seq<Byte>, r: Reader, pairs: seq<nat>, size: nat, room: nat)
    requires Tracks(file, r, pairs) && MayRead(file, r, size, room)
    ensures Tracks(file, AfterRead(file, r, size), pairs + Pairs(file, r, size))
  {
    if size == 0 { EndTracks(file, r, pairs); } else { ChunkTracks(file, r, pairs, size); }
  }

  lemma EndTracks(file: seq<Byte>, r: Reader, pairs: seq<nat>)
    requires Tracks(file, r, pairs) && !r.eof && r.offset == |file|
    ensures Tracks(file, AfterRead(file, r, 0), pairs + Pairs(file, r, 0))
  {
    var even := file[..|file| - |r.carry|];
    assert even + r.carry == file;
    if r.carry == [] {
      var chunk := Chunk(file, r, 0);
      assert chunk == [] && chunk[..0] == [] && even == file;
    } else {
      var chunk := Chunk(file, r, 0);
      assert chunk == [r.carry[0], 0] && chunk[..2] == chunk && chunk[2..] == [];
      ShortsAppend(even, r.carry);
      assert Shorts(chunk) == [Short(r.carry[0], 0)] == Shorts(r.carry);
    }
  }

  lemma ChunkTracks(file: seq<Byte>, r: Reader, pairs: seq<nat>, size: nat)
    requires Tracks(file, r, pairs) && !r.eof && 0 < size && r.offset + size <= |file|
    ensures Tracks(file, AfterRead(file, r, size), pairs + Pairs(file, r, size))
  {
    var start, end, chunk := r.offset - |r.carry|, r.offset + size, Chunk(file, r, size);
    assert chunk == file[start..end];
    var whole := Even(|chunk|);
    hide Even, Shorts, Chunk;
    Continues(file, start, whole, end);
    assert AfterRead(file, r, size) == Reader(end, file[start + whole..end], false);
  }

  lemma Continues(file: seq<Byte>, start: nat, whole: nat, end: nat)
    requires start % 2 == 0 && whole % 2 == 0 && start + whole <= end <= |file|
    ensures (start + whole) % 2 == 0
    ensures Shorts(file[..start]) + Shorts(file[start..end][..whole]) == Shorts(file[..start + whole])
    ensures file[start..end][whole..] == file[start + whole..end]
  {
    ShortsAppend(file[..start], file[start..end][..whole]);
    hide Shorts;
    assert file[..start] + file[start..end][..whole] == file[..start + whole];
  }

  // ---------------------------------------------------------------- the thread's loop

  /** The counters after counting pairs. */
  ghost predicate Added(before: seq<int>, counter: seq<int>, pairs: seq<nat>) {
    |counter| == |before| == ARRAY_SIZE
      && forall s: nat :: s < ARRAY_SIZE ==> counter[s] == before[s] + Occurs(pairs, s)
  }

  lemma AddedAppend(before: seq<int>, between: seq<int>, after: seq<int>, a: seq<nat>, b: seq<nat>)
    requires Added(before, between, a) && Added(between, after, b)
    ensures Added(before, after, a + b)
  {
    forall s: nat | s < ARRAY_SIZE ensures after[s] == before[s] + Occurs(a + b, s) { OccursAppend(a, b, s); }
  }

  lemma AddedOne(before: seq<int>, s: nat)
    requires |before| == ARRAY_SIZE && s < ARRAY_SIZE
    ensures Added(before, before[s := before[s] + 1], [s])
  {
    forall x: nat ensures Occurs([s], x) == (if x == s then 1 else 0) { assert [s][..0] == []; }
  }

  method Read(file: seq<Byte>, offset: nat, buffer: array<Byte>, pos: nat) returns (size: nat)
    requires offset <= |file| && pos < buffer.Length
    modifies buffer
    ensures MayRead(file, Reader(offset, old(buffer[..pos]), false), size, buffer.Length)
    ensures buffer[..pos + size] == old(buffer[..pos]) + file[offset..offset + size]
  {
    var most := if |file| - offset < buffer.Length - pos then |file| - offset else buffer.Length - pos;
    size :| 0 <= size <= most && (size == 0 ==> most == 0);
    forall k | 0 <= k < size { buffer[pos + k] := file[offset + k]; }
    assert buffer[..pos] == old(buffer[..pos]) && buffer[pos..pos + size] == file[offset..offset + size];
  }

  /** Reads behind the carried byte, and pads it at the end of the file. */
  method Fill(file: seq<Byte>, offset: nat, pos: nat, buffer: array<Byte>) returns (size: nat, byteSize: nat)
    requires offset <= |file| && pos < 2 <= buffer.Length
    modifies buffer
    ensures MayRead(file, Reader(offset, old(buffer[..pos]), false), size, buffer.Length) && byteSize <= buffer.Length
    ensures buffer[..byteSize] == Chunk(file, Reader(offset, old(buffer[..pos]), false), size)
  {
    size := Read(file, offset, buffer, pos);
    byteSize := size + pos;
    if size == 0 && pos > 0 {
      buffer[pos] := 0;
      byteSize := byteSize + 1;
      assert buffer[..byteSize] == old(buffer[..pos]) + [0];
    }
  }

  /** The loop over the pairs of one chunk; pairs are the values it locks, in order. */
  method CountChunk(buffer: array<Byte>, shortSize: nat, counter: array<int>) returns (ghost pairs: seq<nat>)
    requires 2 * shortSize <= buffer.Length && counter.Length == ARRAY_SIZE && counter as object != buffer as object
    modifies counter
    ensures pairs == Shorts(buffer[..2 * shortSize]) && Added(old(counter[..]), counter[..], pairs)
    ensures |pairs| == shortSize
    ensures forall k :: 0 <= k < |pairs| ==> pairs[k] == buffer[2 * k] as int + 256 * buffer[2 * k + 1] as int
    ensures buffer[..] == old(buffer[..])
  {
    pairs := [];
    for i := 0 to shortSize
      invariant pairs == Shorts(buffer[..2 * i]) && Added(old(counter[..]), counter[..], pairs)
      invariant |pairs| == i
      invariant forall k :: 0 <= k < |pairs| ==> pairs[k] == buffer[2 * k] as int + 256 * buffer[2 * k + 1] as int
      invariant buffer[..] == old(buffer[..])
    {
      ghost var between := counter[..];
      var s := Short(buffer[2 * i], buffer[2 * i + 1]);
      counter[s] := counter[s] + 1;
      AddedOne(between, s);
      AddedAppend(old(counter[..]), between, counter[..], pairs, [s]);
      OnePair(buffer[..2 * i], buffer[2 * i], buffer[2 * i + 1]);
      assert buffer[..2 * i] + [buffer[2 * i], buffer[2 * i + 1]] == buffer[..2 * (i + 1)];
      pairs := pairs + [s];
    }
  }

  lemma OnePair(bytes: seq<Byte>, lo: Byte, hi: Byte)
    requires |bytes| % 2 == 0
    ensures Shorts(bytes + [lo, hi]) == Shorts(bytes) + [Short(lo, hi)]
  {
    ShortsAppend(bytes, [lo, hi]);
    assert [lo, hi][2..] == [];
  }

  /** One round of the loop, with a buffer of any size that has room for a pair. */
  method Round(file: seq<Byte>, offset: nat, pos: nat, buffer: array<Byte>, counter: array<int>)
    returns (offset': nat, pos': nat, eof: bool, ghost pairs: seq<nat>)
    requires offset <= |file| && pos < 2 <= buffer.Length
    requires counter.Length == ARRAY_SIZE && counter as object != buffer as object
    modifies buffer, counter
    ensures offset <= offset'
    ensures MayRead(file, Reader(offset, old(buffer[..pos]), false), offset' - offset, buffer.Length)
    ensures pairs == Pairs(file, Reader(offset, old(buffer[..pos]), false), offset' - offset)
    ensures var chunk := Chunk(file, Reader(offset, old(buffer[..pos]), false), offset' - offset);
      |pairs| == |chunk| / 2
      && forall k :: 0 <= k < |pairs| ==> pairs[k] == chunk[2 * k] as int + 256 * chunk[2 * k + 1] as int
    ensures pos' < 2
    ensures Reader(offset', buffer[..pos'], eof)
         == AfterRead(file, Reader(offset, old(buffer[..pos]), false), offset' - offset)
    ensures Added(old(counter[..]), counter[..], pairs)
  {
    var size, byteSize := Fill(file, offset, pos, buffer);
    ghost var chunk := buffer[..byteSize];
    offset' := offset + size;
    var shortSize := byteSize / 2;
    pos' := byteSize % 2;
    pairs := CountChunk(buffer, shortSize, counter);
    assert buffer[..byteSize] == chunk && buffer[..2 * shortSize] == chunk[..2 * shortSize];
    eof := size == 0;
    if eof {
      return;
    }
    if pos' > 0 {
      buffer[0] := buffer[byteSize - 1];
      assert buffer[..pos'] == chunk[2 * shortSize..];
    }
  }

  /** A thread locks and counts exactly the pairs of its file, in order, however the reads split it. */
  method Run(file: seq<Byte>, buffer: array<Byte>, counter: array<int>) returns (ghost pairs: seq<nat>)
    requires buffer.Length >= 2 && counter.Length == ARRAY_SIZE && counter as object != buffer as object
    modifies buffer, counter
    ensures pairs == Shorts(file) && Added(old(counter[..]), counter[..], pairs)
    ensures |pairs| == (|file| + 1) / 2
    ensures forall k :: 0 <= k < |pairs| ==>
      pairs[k] == file[2 * k] as int + 256 * (if 2 * k + 1 < |file| then file[2 * k + 1] as int else 0)
  {
    pairs := [];
    var offset: nat, pos: nat, eof := 0, 0, false;
    while !eof
      invariant pos < 2 && Tracks(file, Reader(offset, buffer[..pos], eof), pairs)
      invariant Added(old(counter[..]), counter[..], pairs)
      decreases if eof then 0 else |file| - offset + 1
    {
      ghost var r, between := Reader(offset, buffer[..pos], false), counter[..];
      ghost var more: seq<nat>;
      offset, pos, eof, more := Round(file, offset, pos, buffer, counter);
      ReadKeepsTrack(file, r, pairs, offset - r.offset, buffer.Length);
      AddedAppend(old(counter[..]), between, counter[..], pairs, more);
      pairs := pairs + more;
    }
    ShortsLength(file);
    forall k | 0 <= k < |pairs|
      ensures pairs[k] == file[2 * k] as int + 256 * (if 2 * k + 1 < |file| then file[2 * k + 1] as int else 0)
    {
      ShortsAt(file, k);
    }
  }
}
