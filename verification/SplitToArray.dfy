/** Splitting a text into its words in place (posix/lib/lib.c, split_to_array).

    The words are moved to the front of the text's own buffer, each followed by a zero byte; the result is an array of
    pointers to them. Word characters are never zero, and the buffer ends with a zero byte behind the text. */
module SplitToArray {
  import opened Bytes
  import opened Flattening

  // ---------------------------------------------------------------- what the words of a text are

  /** Position k of t holds a word character. */
  predicate WordAt(t: seq<Byte>, k: int) { 0 <= k < |t| && IsStringByte(t[k]) }

  /** The first position from i on that holds no word character. */
  function RunEnd(t: seq<Byte>, i: nat): (e: nat)
    requires i <= |t|
    ensures i <= e <= |t| && (forall k :: i <= k < e ==> WordAt(t, k)) && !WordAt(t, e)
    decreases |t| - i
  {
    if WordAt(t, i) then RunEnd(t, i + 1) else i
  }

  /** The first position from i on that holds a word character. */
  function GapEnd(t: seq<Byte>, i: nat): (e: nat)
    requires i <= |t|
    ensures i <= e <= |t| && (forall k :: i <= k < e ==> !WordAt(t, k)) && (e < |t| ==> WordAt(t, e))
    decreases |t| - i
  {
    if i < |t| && !WordAt(t, i) then GapEnd(t, i + 1) else i
  }

  /** The words of t from position i on. */
  function Words(t: seq<Byte>, i: nat): (ws: seq<seq<Byte>>)
    requires i <= |t|
    decreases |t| - i
  {
    var b := GapEnd(t, i);
    if b < |t| then [t[b..RunEnd(t, b)]] + Words(t, RunEnd(t, b)) else []
  }

  /** The words of the text, after an empty string if the text does not start with a word. */
  function Expected(text: seq<Byte>): seq<seq<Byte>> {
    (if !WordAt(text, 0) then [[]] else []) + Words(text, 0)
  }

  /** t[i..j] is a run of word characters that cannot be extended. */
  predicate MaximalRun(t: seq<Byte>, i: nat, j: nat) {
    && i < j <= |t| && (forall k :: i <= k < j ==> WordAt(t, k))
    && !WordAt(t, i - 1) && !WordAt(t, j)
  }

  /** bounds lists the maximal runs of t from position i on, in order and without any other entry. */
  ghost predicate ListsRuns(t: seq<Byte>, i: nat, bounds: seq<(nat, nat)>) {
    && (forall k :: 0 <= k < |bounds| ==> MaximalRun(t, bounds[k].0, bounds[k].1) && i <= bounds[k].0)
    && (forall k, l :: 0 <= k < l < |bounds| ==> bounds[k].1 < bounds[l].0)
    && (forall b: nat, e: nat :: i <= b && MaximalRun(t, b, e) ==> (b, e) in bounds)
  }

  /** A run consists of letters, digits and upper Latin-1 characters, and ends before any other byte. */
  lemma RunBytes(t: seq<Byte>, i: nat)
    requires i <= |t|
    ensures forall k :: i <= k < RunEnd(t, i) ==>
      65 <= t[k] <= 90 || 48 <= t[k] <= 57 || 97 <= t[k] <= 122 || 160 <= t[k] <= 255
    ensures RunEnd(t, i) < |t| ==>
      var c := t[RunEnd(t, i)]; !(65 <= c <= 90 || 48 <= c <= 57 || 97 <= c <= 122 || 160 <= c <= 255)
  {
    assert forall k :: i <= k < RunEnd(t, i) ==> WordAt(t, k) && t[k] == t[k];
  }

  lemma GapBytes(t: seq<Byte>, i: nat)
    requires i <= |t|
    ensures forall k :: i <= k < GapEnd(t, i) ==>
      !(65 <= t[k] <= 90 || 48 <= t[k] <= 57 || 97 <= t[k] <= 122 || 160 <= t[k] <= 255)
    ensures GapEnd(t, i) < |t| ==>
      var c := t[GapEnd(t, i)]; 65 <= c <= 90 || 48 <= c <= 57 || 97 <= c <= 122 || 160 <= c <= 255
  {
    assert forall k :: i <= k < GapEnd(t, i) ==> !WordAt(t, k) && t[k] == t[k];
  }

  /** Words lists the contents of exactly the maximal runs of letters, digits and upper Latin-1 characters, in order:
      the runs lie apart, and a position belongs to one of them exactly if it holds such a byte. */
  lemma WordsAreRuns(t: seq<Byte>, i: nat) returns (bounds: seq<(nat, nat)>)
    requires i <= |t| && (!WordAt(t, i - 1) || !WordAt(t, i))
    ensures ListsRuns(t, i, bounds) && |bounds| == |Words(t, i)|
    ensures forall k :: 0 <= k < |bounds| ==> i <= bounds[k].0 < bounds[k].1 <= |t|
    ensures forall k, l :: 0 <= k < l < |bounds| ==> bounds[k].1 < bounds[l].0
    ensures forall p :: i <= p < |t| ==>
      ((exists k :: 0 <= k < |bounds| && bounds[k].0 <= p < bounds[k].1) <==>
       65 <= t[p] <= 90 || 48 <= t[p] <= 57 || 97 <= t[p] <= 122 || 160 <= t[p] <= 255)
    ensures forall k :: 0 <= k < |bounds| ==> Words(t, i)[k] == t[bounds[k].0..bounds[k].1]
  {
    bounds := RunsListed(t, i);
    forall p | i <= p < |t|
      ensures (exists k :: 0 <= k < |bounds| && bounds[k].0 <= p < bounds[k].1) <==>
       65 <= t[p] <= 90 || 48 <= t[p] <= 57 || 97 <= t[p] <= 122 || 160 <= t[p] <= 255
    {
      RunAt(t, i, bounds, p);
      assert WordAt(t, p) <==> IsStringByte(t[p]);
      hide ListsRuns, WordAt;
    }
  }

  lemma RunAt(t: seq<Byte>, i: nat, bounds: seq<(nat, nat)>, p: nat)
    requires ListsRuns(t, i, bounds) && i <= p < |t| && (!WordAt(t, i - 1) || !WordAt(t, i))
    ensures (exists k :: 0 <= k < |bounds| && bounds[k].0 <= p < bounds[k].1) <==> WordAt(t, p)
  {
    if k :| 0 <= k < |bounds| && bounds[k].0 <= p < bounds[k].1 {
      assert MaximalRun(t, bounds[k].0, bounds[k].1);
    }
    if WordAt(t, p) {
      RunAround(t, p);
      var x: nat, y: nat :| x <= p < y && MaximalRun(t, x, y);
      assert x < i ==> WordAt(t, i - 1) && WordAt(t, i);
      assert (x, y) in bounds;
    }
  }

  /** The maximal run that contains position p. */
  lemma {:induction false} RunAround(t: seq<Byte>, p: nat)
    requires WordAt(t, p)
    ensures exists x: nat, y: nat :: x <= p < y && MaximalRun(t, x, y)
  {
    if WordAt(t, p - 1) {
      RunAround(t, p - 1);
    } else {
      assert MaximalRun(t, p, RunEnd(t, p));
    }
  }

  lemma {:induction false} RunsListed(t: seq<Byte>, i: nat) returns (bounds: seq<(nat, nat)>)
    requires i <= |t| && (!WordAt(t, i - 1) || !WordAt(t, i))
    ensures ListsRuns(t, i, bounds) && |bounds| == |Words(t, i)|
    ensures forall k :: 0 <= k < |bounds| ==>
      MaximalRun(t, bounds[k].0, bounds[k].1) && Words(t, i)[k] == t[bounds[k].0..bounds[k].1]
    decreases |t| - i
  {
    var b := GapEnd(t, i);
    if b == |t| {
      bounds := [];
      NoRuns(t, i);
    } else {
      var e := RunEnd(t, b);
      var rest := RunsListed(t, e);
      assert Words(t, i) == [t[b..e]] + Words(t, e);
      FirstRun(t, i, b, e);
      hide ListsRuns, MaximalRun, WordAt, Words, GapEnd, RunEnd;
      OneMoreRun(t, i, b, e, rest);
      bounds := [(b, e)] + rest;
    }
  }

  lemma NoRuns(t: seq<Byte>, i: nat)
    requires i <= |t| && forall k :: i <= k < |t| ==> !WordAt(t, k)
    ensures ListsRuns(t, i, [])
  {
    assert forall x: nat, y: nat :: MaximalRun(t, x, y) ==> WordAt(t, x);
  }

  lemma OneMoreRun(t: seq<Byte>, i: nat, b: nat, e: nat, rest: seq<(nat, nat)>)
    requires i <= b < e && MaximalRun(t, b, e) && ListsRuns(t, e, rest) && forall k :: i <= k < b ==> !WordAt(t, k)
    ensures ListsRuns(t, i, [(b, e)] + rest)
  {
    hide MaximalRun, WordAt;
    var bounds := [(b, e)] + rest;
    assert forall k :: 1 <= k < |bounds| ==> bounds[k] == rest[k - 1];
    forall x: nat, y: nat | i <= x && MaximalRun(t, x, y) ensures (x, y) in bounds {
      RunsApart(t, i, b, e, x, y);
      assert bounds[0] == (b, e);
      assert e <= x ==> (x, y) in rest;
    }
    forall k | 0 <= k < |rest| ensures e < rest[k].0 {
      NextRunLater(t, b, e, rest[k].0, rest[k].1);
    }
  }

  lemma NextRunLater(t: seq<Byte>, b: nat, e: nat, x: nat, y: nat)
    requires MaximalRun(t, b, e) && MaximalRun(t, x, y) && e <= x
    ensures e < x
  {
    assert e < |t| && WordAt(t, x);
  }

  lemma FirstRun(t: seq<Byte>, i: nat, b: nat, e: nat)
    requires i <= |t| && (!WordAt(t, i - 1) || !WordAt(t, i))
    requires b == GapEnd(t, i) < |t| && e == RunEnd(t, b)
    ensures MaximalRun(t, b, e)
  {
    assert !WordAt(t, b - 1);
  }

  /** A maximal run is the first one or starts behind it. */
  lemma RunsApart(t: seq<Byte>, i: nat, b: nat, e: nat, x: nat, y: nat)
    requires i <= x && MaximalRun(t, x, y) && i <= b && MaximalRun(t, b, e) && forall k :: i <= k < b ==> !WordAt(t, k)
    ensures (x == b && y == e) || e <= x
  {
    assert WordAt(t, x);
    assert b < x < e ==> WordAt(t, x - 1);
    assert x == b && y < e ==> WordAt(t, y);
    assert x == b && e < y ==> WordAt(t, e);
  }

  // ---------------------------------------------------------------- the buffer

  /** The words, each with a zero byte behind it. */
  function Joined(words: seq<seq<Byte>>): seq<Byte> {
    if words == [] then [] else Joined(words[..|words| - 1]) + words[|words| - 1] + [0]
  }

  /** Where each word starts. */
  function Offsets(words: seq<seq<Byte>>): (o: seq<nat>)
    ensures |o| == |words|
  {
    if words == [] then [] else Offsets(words[..|words| - 1]) + [|Joined(words[..|words| - 1])|]
  }

  /** The C string at position p of the buffer. */
  function StringAt(t: seq<Byte>, p: nat): seq<Byte>
    decreases |t| - p
  {
    if p >= |t| || t[p] == 0 then [] else [t[p]] + StringAt(t, p + 1)
  }

  predicate NoZero(w: seq<Byte>) { forall k :: 0 <= k < |w| ==> w[k] != 0 }

  lemma {:induction false} StringBeforeZero(t: seq<Byte>, p: nat, w: seq<Byte>)
    requires NoZero(w) && p + |w| < |t| && t[p..p + |w|] == w && t[p + |w|] == 0
    ensures StringAt(t, p) == w
    decreases |w|
  {
    if w != [] {
      assert t[p] == w[0] && t[p + 1..p + 1 + |w[1..]|] == w[1..];
      StringBeforeZero(t, p + 1, w[1..]);
    }
  }

  /** In a buffer that starts with the joined words, the C string at each word's offset is the word. */
  lemma {:induction false} JoinedStrings(words: seq<seq<Byte>>, t: seq<Byte>, k: nat)
    requires k < |words| && (forall i :: 0 <= i < |words| ==> NoZero(words[i])) && Joined(words) <= t
    ensures StringAt(t, Offsets(words)[k]) == words[k]
  {
    var front, last := words[..|words| - 1], words[|words| - 1];
    if k < |front| {
      assert Joined(front) <= t;
      JoinedStrings(front, t, k);
    } else {
      var p := |Joined(front)|;
      assert Joined(words)[p..p + |last|] == last;
      StringBeforeZero(t, p, last);
    }
  }

  /** In a buffer that starts with the joined words, each word stands at its offset, with a zero byte behind it. */
  lemma {:induction false} JoinedAt(words: seq<seq<Byte>>, content: seq<Byte>, k: nat)
    requires k < |words| && Joined(words) <= content
    ensures Offsets(words)[k] + |words[k]| < |content|
    ensures content[Offsets(words)[k]..Offsets(words)[k] + |words[k]|] == words[k]
    ensures content[Offsets(words)[k] + |words[k]|] == 0
  {
    var front, last := words[..|words| - 1], words[|words| - 1];
    assert Joined(front) <= content;
    if k < |front| {
      JoinedAt(front, content, k);
    } else {
      var p := |Joined(front)|;
      assert Joined(words)[p..p + |last|] == last && Joined(words)[p + |last|] == 0;
    }
  }

  lemma {:induction false} WordsHaveNoZero(t: seq<Byte>, i: nat)
    requires i <= |t|
    ensures forall k :: 0 <= k < |Words(t, i)| ==> NoZero(Words(t, i)[k])
    decreases |t| - i
  {
    var b := GapEnd(t, i);
    if b < |t| {
      forall k | 0 <= k < RunEnd(t, b) - b ensures t[b..RunEnd(t, b)][k] != 0 { assert WordAt(t, b + k); }
      WordsHaveNoZero(t, RunEnd(t, b));
    }
  }

  /** The zero byte behind the text ends its last word and adds none. */
  lemma {:induction false} TerminatorAddsNothing(text: seq<Byte>, i: nat)
    requires i <= |text|
    ensures Words(text + [0], i) == Words(text, i)
    decreases |text| - i
  {
    var t := text + [0];
    GapSame(text, i);
    var b := GapEnd(text, i);
    if b < |text| {
      RunSame(text, b);
      var e := RunEnd(text, b);
      assert t[b..e] == text[b..e];
      TerminatorAddsNothing(text, e);
    }
  }

  lemma {:induction false} GapSame(text: seq<Byte>, i: nat)
    requires i <= |text|
    ensures GapEnd(text + [0], i) == if GapEnd(text, i) == |text| then |text| + 1 else GapEnd(text, i)
    decreases |text| - i
  {
    if i < |text| && !IsStringByte(text[i]) { GapSame(text, i + 1); }
  }

  lemma {:induction false} RunSame(text: seq<Byte>, i: nat)
    requires i <= |text|
    ensures RunEnd(text + [0], i) == RunEnd(text, i)
    decreases |text| - i
  {
    if i < |text| && IsStringByte(text[i]) { RunSame(text, i + 1); }
  }

  // ---------------------------------------------------------------- the three inner loops

  /** Moves the run at source, which may be empty, to target and ends it with a zero byte. The write position never
      overtakes the read position, so that everything still to be read is untouched. */
  method CopyString(content: array<Byte>, source: nat, target: nat) returns (source': nat, target': nat)
    requires target <= source < content.Length && content[content.Length - 1] == 0
    modifies content
    ensures var e := RunEnd(old(content[..]), source);
      && source' == e + 1 <= content.Length && target' == target + (e - source) + 1 <= source'
      && content[target..target'] == old(content[source..e]) + [0]
    ensures content[..target] == old(content[..target]) && content[source'..] == old(content[source'..])
  {
    source', target' := source, target;
    ghost var e := RunEnd(content[..], source);
    assert !WordAt(content[..], content.Length - 1);
    while source' < content.Length
      invariant source <= source' <= e < content.Length && target' - target == source' - source
      invariant content[target..target'] == old(content[source..source'])
      invariant content[..target] == old(content[..target]) && content[source'..] == old(content[source'..])
    {
      var c := content[source'];
      assert c == old(content[source'..])[0] && content[source'..][1..] == content[source' + 1..];
      assert IsStringByte(c) <==> WordAt(old(content[..]), source');
      source' := source' + 1;
      if IsStringByte(c) {
        content[target'] := c;
        target' := target' + 1;
      } else {
        content[target'] := 0;
        target' := target' + 1;
        break;
      }
    }
  }

  /** Skips what separates the words. */
  method SkipSeparators(content: array<Byte>, source: nat) returns (source': nat)
    requires source <= content.Length
    ensures source' == GapEnd(content[..], source)
  {
    source' := source;
    while source' < content.Length
      invariant source <= source' <= content.Length && GapEnd(content[..], source') == GapEnd(content[..], source)
    {
      var c := content[source'];
      assert IsStringByte(c) <==> WordAt(content[..], source');
      if IsStringByte(c) {
        break;
      }
      source' := source' + 1;
    }
  }

  lemma GapIdempotent(t: seq<Byte>, i: nat)
    requires i <= |t|
    ensures GapEnd(t, GapEnd(t, i)) == GapEnd(t, i)
    ensures Words(t, GapEnd(t, i)) == Words(t, i)
  {
  }

  /** GapEnd looks only at what is not yet read. */
  lemma {:induction false} GapOfRest(t: seq<Byte>, u: seq<Byte>, i: nat)
    requires i <= |t| == |u| && t[i..] == u[i..]
    ensures GapEnd(t, i) == GapEnd(u, i)
    decreases |t| - i
  {
    if i < |t| {
      assert t[i] == t[i..][0] == u[i];
      assert t[i + 1..] == t[i..][1..] == u[i + 1..];
      GapOfRest(t, u, i + 1);
    }
  }

  /** What is found before position source of the original buffer t, and what is still to be found. */
  ghost predicate Progress(t: seq<Byte>, source: nat, found: seq<seq<Byte>>)
    requires source <= |t|
  {
    && (source == 0 ==> found == [])
    && (source > 0 && source < |t| ==> WordAt(t, source))
    && (source > 0 ==> found + Words(t, source) == Expected(t))
  }

  lemma {:induction false} WordsAreFew(t: seq<Byte>, i: nat)
    requires i <= |t|
    ensures 2 * |Words(t, i)| <= |t| - i + 1
    decreases |t| - i
  {
    var b := GapEnd(t, i);
    if b < |t| {
      var e := RunEnd(t, b);
      assert WordAt(t, b);
      if e < |t| {
        assert Words(t, e) == Words(t, e + 1) by { assert GapEnd(t, e) == GapEnd(t, e + 1); }
        WordsAreFew(t, e + 1);
      }
    }
  }

  const MAX_BLOCK_COUNT: nat := 100000
  const MAX_BLOCK_SIZE: nat := 100000

  /** With the program's table, a text of less than 20 gigabytes never has too many words. */
  lemma TableSuffices(text: seq<Byte>)
    requires |text| < 20_000_000_000
    ensures |Expected(text)| <= MAX_BLOCK_COUNT * MAX_BLOCK_SIZE
  {
    if |text| > 0 && !WordAt(text, 0) {
      WordsAreFew(text, 1);
      assert Words(text, 0) == Words(text, 1) by { assert GapEnd(text, 0) == GapEnd(text, 1); }
    } else {
      WordsAreFew(text, 0);
    }
  }

  /** After a word, the next one is the first behind the gap. */
  lemma WordsFrom(t: seq<Byte>, i: nat)
    requires i < |t| && t[|t| - 1] == 0
    ensures var e := RunEnd(t, i);
      && e < |t| && Words(t, e) == Words(t, GapEnd(t, e + 1))
      && (WordAt(t, i) ==> Words(t, i) == [t[i..e]] + Words(t, e)) && (!WordAt(t, i) ==> e == i)
  {
    assert !WordAt(t, |t| - 1);
    hide Words, WordAt, GapEnd;
    FirstWord(t, i);
    WordsBehindGap(t, RunEnd(t, i));
  }

  lemma WordsBehindGap(t: seq<Byte>, e: nat)
    requires e < |t| && !WordAt(t, e)
    ensures Words(t, e) == Words(t, GapEnd(t, e + 1))
  {
    assert GapEnd(t, e) == GapEnd(t, e + 1);
    GapIdempotent(t, e);
  }

  lemma FirstWord(t: seq<Byte>, i: nat)
    requires i < |t|
    ensures var e := RunEnd(t, i);
      (WordAt(t, i) ==> Words(t, i) == [t[i..e]] + Words(t, e)) && (!WordAt(t, i) ==> e == i)
  {
  }

  lemma RoundProgress(t: seq<Byte>, source: nat, found: seq<seq<Byte>>)
    requires source < |t| && t[|t| - 1] == 0 && Progress(t, source, found)
    ensures var e := RunEnd(t, source); e < |t| && Progress(t, GapEnd(t, e + 1), found + [t[source..e]])
  {
    var e := RunEnd(t, source);
    WordsFrom(t, source);
    hide Words;
    assert found + [t[source..e]] + Words(t, e) == found + ([t[source..e]] + Words(t, e));
    if !WordAt(t, source) { assert t[source..e] == []; }
  }

  lemma AllFound(t: seq<Byte>, found: seq<seq<Byte>>)
    requires |t| > 0 && t[|t| - 1] == 0 && Progress(t, |t|, found)
    ensures found == Expected(t[..|t| - 1])
  {
    var text := t[..|t| - 1];
    assert text + [0] == t && Words(t, |t|) == [] && found + [] == found;
    TerminatorAddsNothing(text, 0);
    assert WordAt(text, 0) == WordAt(t, 0);
  }

  lemma AtMostExpected(t: seq<Byte>, source: nat, found: seq<seq<Byte>>)
    requires |t| > 0 && source < |t| && t[|t| - 1] == 0 && Progress(t, source, found)
    ensures |found| < |Expected(t[..|t| - 1])|
  {
    var text := t[..|t| - 1];
    assert text + [0] == t && WordAt(text, 0) == WordAt(t, 0);
    TerminatorAddsNothing(text, 0);
    if source == 0 {
      assert WordAt(t, 0) ==> |Words(t, 0)| > 0;
    } else {
      assert |Words(t, source)| > 0;
    }
  }

  lemma JoinedAppend(found: seq<seq<Byte>>, w: seq<Byte>)
    ensures Joined(found + [w]) == Joined(found) + w + [0]
    ensures Offsets(found + [w]) == Offsets(found) + [|Joined(found)|]
  {
    assert (found + [w])[..|found|] == found;
  }

  /** The buffer, when all before source is read: the words found, packed, and at source the rest of the original t. */
  ghost predicate BufferOk(content: seq<Byte>, t: seq<Byte>, source: nat, target: nat, found: seq<seq<Byte>>) {
    && |content| == |t| > 0 && t[|t| - 1] == 0 && target <= source <= |t|
    && content[..target] == Joined(found) && content[source..] == t[source..] && Progress(t, source, found)
  }

  lemma EndsWithZero(content: seq<Byte>, t: seq<Byte>, source: nat)
    requires source < |t| == |content| && t[|t| - 1] == 0 && content[source..] == t[source..]
    ensures content[|content| - 1] == 0
  {
    assert content[source..][|t| - 1 - source] == 0;
  }

  /** One round: copy a word and skip to the next. */
  method CopyWord(content: array<Byte>, source: nat, target: nat, ghost t: seq<Byte>, ghost found: seq<seq<Byte>>)
    returns (source': nat, target': nat, ghost w: seq<Byte>)
    requires source < content.Length && BufferOk(content[..], t, source, target, found)
    modifies content
    ensures target' > target && source' > source && BufferOk(content[..], t, source', target', found + [w])
  {
    hide Progress, Words, GapEnd, RunEnd, Joined, Offsets;
    ghost var before := content[..];
    EndsWithZero(before, t, source);
    RunOfRest(before, t, source);
    source', target' := CopyString(content, source, target);
    w := t[source..RunEnd(t, source)];
    assert old(content[..target]) == before[..target]
      && old(content[source..source' - 1]) == before[source..source' - 1];
    ghost var next := source';
    Moved(before, content[..], t, source, target, next, target', found, w);
    RoundProgress(t, source, found);
    GapOfRest(content[..], t, next);
    source' := SkipSeparators(content, source');
    SameRest(content[..], t, next, source');
  }

  lemma Moved(before: seq<Byte>, after: seq<Byte>, t: seq<Byte>, source: nat, target: nat, source': nat, target': nat,
              found: seq<seq<Byte>>, w: seq<Byte>)
    requires |before| == |after| == |t| && target <= source < source' <= |t| && target <= target' <= |t|
    requires before[..target] == Joined(found) && before[source..] == t[source..] && w == t[source..source' - 1]
    requires after[target..target'] == before[source..source' - 1] + [0] && after[..target] == before[..target]
    requires after[source'..] == before[source'..]
    ensures after[..target'] == Joined(found + [w]) && after[source'..] == t[source'..]
  {
    JoinedAppend(found, w);
    hide Joined;
    assert after[..target'] == after[..target] + after[target..target'];
    SameRest(before, t, source, source' - 1);
    SameRest(before, t, source, source');
  }

  lemma SameRest(s: seq<Byte>, t: seq<Byte>, i: nat, j: nat)
    requires i <= j <= |s| == |t| && s[i..] == t[i..]
    ensures s[j..] == t[j..] && s[i..j] == t[i..j]
  {
    assert s[j..] == s[i..][j - i..] && t[j..] == t[i..][j - i..];
    assert s[i..j] == s[i..][..j - i] && t[i..j] == t[i..][..j - i];
  }

  lemma {:induction false} RunOfRest(t: seq<Byte>, u: seq<Byte>, i: nat)
    requires i <= |t| == |u| && t[i..] == u[i..]
    ensures RunEnd(t, i) == RunEnd(u, i)
    decreases |t| - i
  {
    if i < |t| {
      assert t[i] == t[i..][0] == u[i];
      assert t[i + 1..] == t[i..][1..] == u[i + 1..];
      RunOfRest(t, u, i + 1);
    }
  }

  /** The C strings at the returned positions are exactly the expected ones, and the buffer now starts with them,
      packed. content has room for one zero byte behind the text; the table of pointers must be large enough. */
  method SplitWords(content: array<Byte>, size: nat, blockCount: nat) returns (strings: array<nat>)
    requires content.Length > 0 && content[content.Length - 1] == 0 && size > 0
    requires |Expected(content[..content.Length - 1])| <= blockCount * size
    modifies content
    ensures var words := Expected(old(content[..content.Length - 1]));
      && strings[..] == Offsets(words) && Joined(words) <= content[..]
      && forall k :: 0 <= k < |words| ==> StringAt(content[..], Offsets(words)[k]) == words[k]
  {
    hide Progress, Words, GapEnd, RunEnd, Joined, Offsets, TableOk, Expected, StringAt;
    ghost var t := content[..];
    assert t[..|t| - 1] == content[..content.Length - 1];
    var blocks := new seq<nat>[blockCount](_ => []);
    EmptyTable<nat>(blocks[..], size);
    StartsEmpty(t);
    var source, target, stringPos, blockPos, stringCount := 0, 0, 0, 0, 0;
    ghost var found: seq<seq<Byte>> := [];
    while source < content.Length
      invariant BufferOk(content[..], t, source, target, found) && stringCount == |found|
      invariant fresh(blocks) && TableOk(blocks[..], size, stringPos, blockPos, Offsets(found))
      invariant source <= content.Length
    {
      AtMostExpected(t, source, found);
      ghost var w;
      var stringPointer := target;
      assert stringPointer == |Joined(found)|;
      source, target, w := CopyWord(content, source, target, t, found);
      if target > stringPointer {
        JoinedAppend(found, w);
        stringPos, blockPos := Add(blocks, size, stringPos, blockPos, stringPointer, Offsets(found));
        stringCount := stringCount + 1;
      }
      found := found + [w];
    }
    Done(content[..], t, target, found);
    strings := Flatten(blocks, size, stringPos, blockPos, stringCount, Offsets(found));
  }

  /** The same in terms of the text alone: bounds are the runs of letters, digits and upper Latin-1 characters, and the
      string of each run holds its bytes; an empty string comes first if the text does not start with such a byte. */
  method Split(content: array<Byte>, size: nat, blockCount: nat)
    returns (strings: array<nat>, ghost first: nat, ghost bounds: seq<(nat, nat)>)
    requires content.Length > 0 && content[content.Length - 1] == 0 && size > 0
    requires |Expected(content[..content.Length - 1])| <= blockCount * size
    modifies content
    ensures strings[..] == Offsets(Expected(old(content[..content.Length - 1])))
    ensures forall k :: 0 <= k < |bounds| ==> bounds[k].0 < bounds[k].1 < content.Length
    ensures forall k, l :: 0 <= k < l < |bounds| ==> bounds[k].1 < bounds[l].0
    ensures forall p :: 0 <= p < content.Length - 1 ==>
      ((exists k :: 0 <= k < |bounds| && bounds[k].0 <= p < bounds[k].1) <==>
       var c := old(content[..])[p]; 65 <= c <= 90 || 48 <= c <= 57 || 97 <= c <= 122 || 160 <= c <= 255)
    ensures first == (if |bounds| > 0 && bounds[0].0 == 0 then 0 else 1) && strings.Length == first + |bounds|
    ensures first == 1 ==> strings[0] < content.Length && content[..][strings[0]] == 0
    ensures forall k :: 0 <= k < |bounds| ==>
      var p, w := strings[..][first + k], old(content[..])[bounds[k].0..bounds[k].1];
      p + |w| < content.Length && content[..][p..p + |w|] == w && content[..][p + |w|] == 0
  {
    hide ListsRuns, Expected, Words, Offsets, Joined, StringAt, WordAt, GapEnd, RunEnd, NoZero;
    ghost var t, text := content[..], content[..content.Length - 1];
    strings := SplitWords(content, size, blockCount);
    bounds := WordsOfText(t, text);
    first := StringsAtBounds(t, text, content[..], strings[..], bounds);
  }

  /** WordsAreRuns, for a text with a byte behind it. */
  lemma WordsOfText(t: seq<Byte>, text: seq<Byte>) returns (bounds: seq<(nat, nat)>)
    requires |t| > 0 && text == t[..|t| - 1]
    ensures ListsRuns(text, 0, bounds) && |bounds| == |Words(text, 0)|
    ensures forall k :: 0 <= k < |bounds| ==> bounds[k].0 < bounds[k].1 < |t|
    ensures forall k, l :: 0 <= k < l < |bounds| ==> bounds[k].1 < bounds[l].0
    ensures forall p :: 0 <= p < |t| - 1 ==>
      ((exists k :: 0 <= k < |bounds| && bounds[k].0 <= p < bounds[k].1) <==>
       65 <= t[p] <= 90 || 48 <= t[p] <= 57 || 97 <= t[p] <= 122 || 160 <= t[p] <= 255)
    ensures forall k :: 0 <= k < |bounds| ==> Words(text, 0)[k] == t[bounds[k].0..bounds[k].1]
  {
    bounds := WordsAreRuns(text, 0);
    hide ListsRuns, Words;
    forall k | 0 <= k < |bounds| ensures text[bounds[k].0..bounds[k].1] == t[bounds[k].0..bounds[k].1] {
      InnerSlice(t, text, bounds[k].0, bounds[k].1);
    }
    assert forall p :: 0 <= p < |text| ==> text[p] == t[p];
  }

  lemma InnerSlice(t: seq<Byte>, text: seq<Byte>, b: nat, e: nat)
    requires text <= t && b <= e <= |text|
    ensures text[b..e] == t[b..e]
  {
  }

  /** Each word stands at its string's position, behind an empty string if the text does not start with a word. */
  lemma StringsAtBounds(t: seq<Byte>, text: seq<Byte>, content: seq<Byte>, strings: seq<nat>,
                        bounds: seq<(nat, nat)>)
    returns (first: nat)
    requires |bounds| == |Words(text, 0)| && ListsRuns(text, 0, bounds)
    requires strings == Offsets(Expected(text)) && Joined(Expected(text)) <= content
    requires forall k :: 0 <= k < |bounds| ==> bounds[k].0 < bounds[k].1 < |t|
    requires forall k :: 0 <= k < |bounds| ==> Words(text, 0)[k] == t[bounds[k].0..bounds[k].1]
    ensures first == (if |bounds| > 0 && bounds[0].0 == 0 then 0 else 1) && |strings| == first + |bounds|
    ensures first == 1 ==> strings[0] < |content| && content[strings[0]] == 0
    ensures forall k :: 0 <= k < |bounds| ==>
      var p, w := strings[first + k], t[bounds[k].0..bounds[k].1];
      p + |w| < |content| && content[p..p + |w|] == w && content[p + |w|] == 0
  {
    hide Words, Joined, Offsets, ListsRuns, WordAt;
    var words := Expected(text);
    first := if |bounds| > 0 && bounds[0].0 == 0 then 0 else 1;
    StartsWithWord(text, bounds);
    assert |words| == first + |bounds| && (first == 1 ==> words[0] == []);
    assert forall k :: 0 <= k < |bounds| ==> words[first + k] == Words(text, 0)[k];
    hide Expected;
    if first == 1 { JoinedAt(words, content, 0); }
    forall k | 0 <= k < |bounds|
      ensures var p, w := strings[first + k], t[bounds[k].0..bounds[k].1];
        p + |w| < |content| && content[p..p + |w|] == w && content[p + |w|] == 0
    {
      JoinedAt(words, content, first + k);
    }
  }

  lemma StartsWithWord(text: seq<Byte>, bounds: seq<(nat, nat)>)
    requires ListsRuns(text, 0, bounds)
    ensures WordAt(text, 0) <==> |bounds| > 0 && bounds[0].0 == 0
  {
    if WordAt(text, 0) {
      RunAround(text, 0);
      var x: nat, y: nat :| x <= 0 < y && MaximalRun(text, x, y);
      assert (x, y) in bounds;
      var k :| 0 <= k < |bounds| && bounds[k] == (x, y);
      assert forall l :: 0 < l < |bounds| ==> bounds[0].1 < bounds[l].0;
    } else if |bounds| > 0 {
      assert MaximalRun(text, bounds[0].0, bounds[0].1);
    }
  }

  lemma EmptyTable<T>(blocks: seq<seq<T>>, size: nat)
    requires size > 0 && forall b :: 0 <= b < |blocks| ==> blocks[b] == []
    ensures TableOk(blocks, size, 0, 0, [])
  {
    FlatEnd(blocks, 0);
  }

  lemma StartsEmpty(t: seq<Byte>)
    requires |t| > 0 && t[|t| - 1] == 0
    ensures BufferOk(t, t, 0, 0, []) && Offsets([]) == []
  {
  }

  lemma Done(content: seq<Byte>, t: seq<Byte>, target: nat, found: seq<seq<Byte>>)
    requires BufferOk(content, t, |t|, target, found)
    ensures found == Expected(t[..|t| - 1]) && Joined(found) <= content
    ensures forall k :: 0 <= k < |found| ==> StringAt(content, Offsets(found)[k]) == found[k]
  {
    AllFound(t, found);
    ExpectedHaveNoZero(t[..|t| - 1]);
    forall k | 0 <= k < |found| ensures StringAt(content, Offsets(found)[k]) == found[k] {
      JoinedStrings(found, content, k);
    }
  }

  lemma ExpectedHaveNoZero(text: seq<Byte>)
    ensures forall k :: 0 <= k < |Expected(text)| ==> NoZero(Expected(text)[k])
  {
    WordsHaveNoZero(text, 0);
  }
}
