/** What the editor's operations add up to: reads after writes, deletion,
    the line index a fresh editor learns, and a whole foreach traversal
    with random access interleaved. */
module FileIterableProperties {
  import opened Stream
  import LineIndex
  import opened FileIterable

  // ---------------------------------------------------------------------
  // Chunk mode

  /** The chunks of the file from byte p on, as a traversal should yield
      them: c bytes each, the last one possibly shorter. */
  function ChunksFrom(data: seq<Byte>, c: nat, p: nat): (r: seq<seq<Byte>>)
    requires c >= 1
    ensures p >= |data| <==> r == []
    decreases |data| - p
  {
    if p >= |data| then [] else [data[p..Min(p + c, |data|)]] + ChunksFrom(data, c, p + c)
  }

  /** A traversal that has yielded `values` up to chunk i and yields chunk
      i next has yielded everything up to chunk i + 1. */
  lemma ChunkRound(data: seq<Byte>, c: nat, values: seq<seq<Byte>>, i: nat)
    requires c >= 1 && c * i < |data|
    requires ChunksFrom(data, c, 0) == values + ChunksFrom(data, c, c * i)
    ensures ChunksFrom(data, c, 0) == (values + [ChunkAt(data, c, i)]) + ChunksFrom(data, c, c * (i + 1))
  {
    MulSucc(c, i);
    ChunksFromStep(data, c, c * i);
    Regroup(values, [ChunkAt(data, c, i)], ChunksFrom(data, c, c * (i + 1)));
  }

  /** The chunks from a are the chunk at a and the chunks after it. */
  lemma ChunksFromStep(data: seq<Byte>, c: nat, a: nat)
    requires c >= 1 && a < |data|
    ensures ChunksFrom(data, c, a) == [ChunkFrom(data, a, c)] + ChunksFrom(data, c, a + c)
  {
  }

  lemma Regroup<T>(a: seq<T>, b: seq<T>, c: seq<T>)
    ensures a + (b + c) == (a + b) + c
  {
  }

  /** The same for lines: the record at p is the next one, and the rest
      starts where fgets from p stops. */
  lemma LineRound(data: seq<Byte>, c: nat, values: seq<seq<Byte>>, p: nat)
    requires c >= 2 && p < |data|
    requires LineIndex.Records(data, 0, c) == values + LineIndex.Records(data, p, c)
    ensures LineIndex.Records(data, 0, c)
            == (values + [RecordAt(data, p, c)]) + LineIndex.Records(data, NextLine(data, p, c), c)
  {
    assert LineIndex.Records(data, p, c)
           == [RecordAt(data, p, c)] + LineIndex.Records(data, NextLine(data, p, c), c);
  }

  /** On the bytes: after the splice of chunk i, chunk i is the value's
      first chunk, provided the value is at least one chunk wide or chunk i
      was the last one. */
  lemma {:induction false} ChunkOfSplice(data: seq<Byte>, c: nat, i: nat, v: seq<Byte>)
    requires c >= 1 && c * i < |data| && |v| >= 1
    requires |v| >= c || c * (i + 1) >= |data|
    ensures var d := Splice(data, c * i, Min(c * (i + 1), |data|), v);
            c * i < |d| && ChunkAt(d, c, i) == v[..Min(c, |v|)]
  {
    MulSucc(c, i);
    SpliceReadBack(data, c * i, c, v);
  }

  /** The same at a byte offset lo: after replacing the c bytes from lo
      (fewer at the end) by v, the c bytes from lo are v's first ones. */
  lemma SpliceReadBack(data: seq<Byte>, lo: nat, c: nat, v: seq<Byte>)
    requires c >= 1 && lo < |data| && |v| >= 1
    requires |v| >= c || lo + c >= |data|
    ensures var d := Splice(data, lo, Min(lo + c, |data|), v);
            lo < |d| && ChunkFrom(d, lo, c) == v[..Min(c, |v|)]
  {
    var hi := Min(lo + c, |data|);
    var d := Splice(data, lo, hi, v);
    assert d == data[..lo] + v + data[hi..];
    if |v| >= c {
      assert d[lo..lo + c] == v[..c];
    } else {
      assert hi == |data| && d == data[..lo] + v;
      assert d[lo..|d|] == v;
    }
  }

  /** Writing chunk i with a value of at least one chunk's width, or
      rewriting the last chunk with any non-empty value, reads back as the
      value's first chunk. */
  lemma {:induction false} ChunkSetThenGet(e: Editor, i: nat, v: seq<Byte>)
    requires WellFormed(e) && e.mode == Chunk && !e.closed
    requires e.size * i < |e.stream.data| && |v| >= 1
    requires |v| >= e.size || e.size * (i + 1) >= |e.stream.data|
    ensures OffsetGet(OffsetSet(e, Index(i), Str(v), true).next, Index(i)).result
            == Ok(Some(v[..Min(e.size, |v|)]))
  {
    var e1 := OffsetSet(e, Index(i), Str(v), true).next;
    ChunkSetBytes(e, i, v);
    ChunkOfSplice(e.stream.data, e.size, i, v);
    GetChunk(e1, i);
  }

  /** Chunk-mode offsetSet of a chunk inside the file, under the lock,
      splices the value over the chunk and keeps the editor readable. */
  lemma ChunkSetBytes(e: Editor, i: nat, v: seq<Byte>)
    requires WellFormed(e) && e.mode == Chunk && !e.closed && e.size * i < |e.stream.data|
    ensures var data := e.stream.data;
            var e1 := OffsetSet(e, Index(i), Str(v), true).next;
            && e1.stream.data == Splice(data, e.size * i, Min(e.size * (i + 1), |data|), v)
            && WellFormed(e1) && e1.mode == Chunk && !e1.closed && e1.size == e.size
  {
  }
  /** Chunk-mode offsetGet of a chunk inside the file reads that chunk. */
  lemma GetChunk(e: Editor, i: nat)
    requires WellFormed(e) && e.mode == Chunk && !e.closed && e.size * i < |e.stream.data|
    ensures OffsetGet(e, Index(i)).result == Ok(Some(ChunkAt(e.stream.data, e.size, i)))
  {
  }

  lemma {:induction false} MulMono(c: nat, x: nat, y: nat)
    requires x <= y
    ensures c * x <= c * y
    decreases y - x
  {
    if x < y {
      MulMono(c, x, y - 1);
      MulSucc(c, y - 1);
    }
  }

  /** Where chunks i and j start and end relative to each other. */
  lemma ChunkOffsets(c: nat, i: nat, j: nat)
    ensures c * (i + 1) == c * i + c
    ensures c * (j + 1) == c * j + c
    ensures c * (j + 2) == c * j + c + c
    ensures j < i ==> c * j + c <= c * i
    ensures j >= i ==> c * j >= c * i
  {
    MulSucc(c, i);
    MulSucc(c, j);
    MulSucc(c, j + 1);
    if j < i {
      MulMono(c, j + 1, i);
    } else {
      MulMono(c, i, j);
    }
  }

  /** A chunk that ends before the removed bytes is not moved. */
  lemma ChunkBeforeRemoval(data: seq<Byte>, lo: nat, hi: nat, a: nat, c: nat)
    requires c >= 1 && lo <= hi <= |data| && a + c <= lo
    ensures ChunkFrom(data[..lo] + data[hi..], a, c) == ChunkFrom(data, a, c)
  {
    var d := data[..lo] + data[hi..];
    assert d[a..a + c] == data[a..a + c];
  }

  /** With one whole chunk of c bytes removed at lo, a chunk starting at or
      after lo is the one that started c bytes later. */
  lemma ChunkPastRemoval(data: seq<Byte>, lo: nat, a: nat, c: nat)
    requires c >= 1 && lo + c <= |data| && a >= lo
    ensures ChunkFrom(data[..lo] + data[lo + c..], a, c) == ChunkFrom(data, a + c, c)
  {
    var d := data[..lo] + data[lo + c..];
    if a < |d| {
      var b := Min(a + c, |d|);
      assert Min(a + c + c, |data|) == b + c;
      forall k | a <= k < b
        ensures d[k] == data[k + c]
      {
      }
      assert d[a..b] == data[a + c..b + c];
    }
  }

  /** With the c bytes at lo removed (fewer at the end), the chunk at a
      is the old chunk at a when it ends before lo, and the old chunk at
      a + c when it starts at or after lo. */
  lemma RemovalShift(data: seq<Byte>, c: nat, lo: nat, hi: nat, a: nat, b: nat, d: seq<Byte>)
    requires c >= 1 && lo < |data| && hi == Min(lo + c, |data|) && d == data[..lo] + data[hi..]
    requires (a + c <= lo && b == a) || (a >= lo && b == a + c)
    ensures ChunkFrom(d, a, c) == ChunkFrom(data, b, c)
  {
    if a < lo {
      ChunkBeforeRemoval(data, lo, hi, a, c);
    } else if hi == |data| {
      assert |d| == lo;
    } else {
      ChunkPastRemoval(data, lo, a, c);
    }
  }

  /** On the bytes: removing chunk i shifts every later chunk down by one
      and keeps the earlier ones. */
  lemma {:induction false} ChunkAfterRemoval(data: seq<Byte>, c: nat, i: nat, j: nat)
    requires c >= 1 && c * i < |data|
    ensures ChunkAt(data[..c * i] + data[Min(c * (i + 1), |data|)..], c, j)
            == ChunkAt(data, c, if j < i then j else j + 1)
  {
    ChunkOffsets(c, i, j);
    RemovalShift(data, c, c * i, Min(c * (i + 1), |data|), c * j, c * (if j < i then j else j + 1),
      data[..c * i] + data[Min(c * (i + 1), |data|)..]);
  }

  /** Deleting chunk i removes its bytes and shifts every later chunk down
      by one: chunk j of the result is chunk j of the old file for j < i
      and chunk j + 1 for j >= i. */
  lemma {:induction false} ChunkUnsetShifts(e: Editor, i: nat, j: nat)
    requires WellFormed(e) && e.mode == Chunk && !e.closed
    requires e.size * i < |e.stream.data|
    ensures var d := OffsetUnset(e, Index(i), true).next.stream.data;
            ChunkAt(d, e.size, j) == ChunkAt(e.stream.data, e.size, if j < i then j else j + 1)
  {
    var data := e.stream.data;
    var c := e.size;
    assert OffsetUnset(e, Index(i), true).next.stream.data == data[..c * i] + data[Min(c * (i + 1), |data|)..];
    ChunkAfterRemoval(data, c, i, j);
  }

  /** On the bytes: appending to a file of n whole chunks leaves the n
      chunks as they were and starts chunk n with the value. */
  lemma ChunksAfterAppend(data: seq<Byte>, c: nat, n: nat, v: seq<Byte>, j: nat)
    requires c >= 1 && |data| == c * n && j <= n
    ensures j < n ==> ChunkAt(data + v, c, j) == ChunkAt(data, c, j)
    ensures j == n ==> ChunkAt(data + v, c, j) == ChunkFrom(v, 0, c)
  {
    ChunkOffsets(c, n, j);
    if j < n {
      ChunkBeforeEnd(data, v, c * j, c);
    } else {
      ChunkAtEnd(data, v, c);
    }
  }

  /** A chunk that ends inside the file is not touched by an append. */
  lemma ChunkBeforeEnd(data: seq<Byte>, v: seq<Byte>, a: nat, c: nat)
    requires c >= 1 && a + c <= |data|
    ensures ChunkFrom(data + v, a, c) == ChunkFrom(data, a, c)
  {
    assert (data + v)[a..a + c] == data[a..a + c];
  }

  /** The chunk that starts at the old end is the value's first. */
  lemma ChunkAtEnd(data: seq<Byte>, v: seq<Byte>, c: nat)
    requires c >= 1
    ensures ChunkFrom(data + v, |data|, c) == ChunkFrom(v, 0, c)
  {
    if |v| > 0 {
      assert (data + v)[|data|..Min(|data| + c, |data| + |v|)] == v[..Min(c, |v|)];
    }
  }

  /** Appending in chunk mode to a file of n whole chunks: chunk n reads
      as the value's first chunk (none for an empty value), and every
      earlier chunk reads as before. */
  lemma {:induction false} ChunkAppendThenGet(e: Editor, n: nat, v: seq<Byte>, j: nat)
    requires WellFormed(e) && e.mode == Chunk && !e.closed
    requires |e.stream.data| == e.size * n && j <= n
    ensures var e1 := OffsetSet(e, NullOffset, Str(v), true).next;
            && (j < n ==> OffsetGet(e1, Index(j)).result == OffsetGet(e, Index(j)).result)
            && (j == n ==> OffsetGet(e1, Index(j)).result
                           == Ok(if |v| == 0 then None else Some(v[..Min(e.size, |v|)])))
  {
    var e1 := OffsetSet(e, NullOffset, Str(v), true).next;
    assert e1.stream.data == e.stream.data + v;
    ChunksAfterAppend(e.stream.data, e.size, n, v, j);
    ChunkOffsets(e.size, n, j);
  }

  /** Appending in line mode to a file that is empty or ends with a
      newline: the value becomes the line after the file's last record, so
      get(n), n the number of records a traversal yields, reads it back on
      the reset index. */
  lemma LineAppendThenGet(e: Editor, v: seq<Byte>, locked: bool)
    requires WellFormed(e) && e.mode == Line && !e.closed
    requires |e.stream.data| == 0 || e.stream.data[|e.stream.data| - 1] == NEWLINE
    requires NEWLINE !in v && |v| <= e.size - 1
    ensures var e1 := OffsetSet(e, NullOffset, Str(v), locked).next;
            OffsetGet(e1, Index(|LineIndex.Records(e.stream.data, 0, e.size)|)).result == Ok(Some(v))
  {
    var data := e.stream.data;
    var n := LineIndex.RecordCount(data, 0, e.size);
    LineIndex.RecordCountLength(data, 0, e.size);
    var e1 := OffsetSet(e, NullOffset, Str(v), locked).next;
    LineAppendBytes(e, v, locked);
    AppendedLineLearned(e1, data, v);
    AppendedLineAt(data, v + [NEWLINE]);
    RecordOfWrittenLine(e1.stream.data, |data|, v, e.size);
    GetLearnedLine(e1, n, |data|, v);
  }

  /** The bytes and index a line-mode append of a value without newlines
      leaves: the value and a newline after the old bytes, index {0: 0}. */
  lemma LineAppendBytes(e: Editor, v: seq<Byte>, locked: bool)
    requires WellFormed(e) && e.mode == Line && !e.closed && NEWLINE !in v
    ensures var e1 := OffsetSet(e, NullOffset, Str(v), locked).next;
            && WellFormed(e1) && e1.mode == Line && !e1.closed && e1.size == e.size
            && e1.stream.data == e.stream.data + (v + [NEWLINE]) && e1.lines == [0]
  {
  }

  /** On the reset index, mapToLine(n) over the old bytes followed by the
      appended line learns line n at the old end of the file, where the
      appended line starts. */
  lemma AppendedLineLearned(e1: Editor, data: seq<Byte>, v: seq<Byte>)
    requires WellFormed(e1) && e1.mode == Line && e1.lines == [0]
    requires e1.stream.data == data + (v + [NEWLINE])
    requires |data| == 0 || data[|data| - 1] == NEWLINE
    ensures var n := LineIndex.RecordCount(data, 0, e1.size);
            n < |Learned(e1, n).0| && Learned(e1, n).0[n] == |data|
  {
    LineIndex.MapAcrossPrefix(e1.stream, data, v + [NEWLINE], e1.size);
  }

  /** The appended line sits right after the old bytes. */
  lemma AppendedLineAt(data: seq<Byte>, t: seq<Byte>)
    ensures (data + t)[|data|..|data| + |t|] == t
  {
  }

  // ---------------------------------------------------------------------
  // Line mode

  /** On the bytes: a line written as v and a newline at p, with v of at
      most limit - 1 bytes, reads back as v. */
  lemma {:induction false} RecordOfWrittenLine(d: seq<Byte>, p: nat, v: seq<Byte>, limit: nat)
    requires limit >= 2 && NEWLINE !in v && |v| <= limit - 1
    requires p + |v| + 1 <= |d| && d[p..p + |v| + 1] == v + [NEWLINE]
    ensures RecordAt(d, p, limit) == v
  {
    if |v| + 1 <= limit - 1 {
      RecordWithNewline(d, p, v, limit);
    } else {
      RecordAtBound(d, p, v, limit);
    }
  }

  /** A value shorter than the fgets bound: fgets reads it and its
      newline, and trim drops the newline. */
  lemma {:induction false} RecordWithNewline(d: seq<Byte>, p: nat, v: seq<Byte>, limit: nat)
    requires limit >= 2 && NEWLINE !in v && |v| + 1 <= limit - 1
    requires p + |v| + 1 <= |d| && d[p..p + |v| + 1] == v + [NEWLINE]
    ensures RecordAt(d, p, limit) == v
  {
    var q := p + |v| + 1;
    forall k | p <= k < q - 1
      ensures d[k] != NEWLINE
    {
      assert d[k] == v[k - p];
    }
    assert d[q - 1] == NEWLINE;
    NextLineIs(d, p, limit, q);
    var w := d[p..q];
    assert w == v + [NEWLINE];
    assert RecordAt(d, p, limit) == TrimEol(w);
    TrimEolRecord(v);
  }

  /** A value of exactly limit - 1 bytes: fgets stops at the bound, just
      before the newline, and returns the value itself. */
  lemma {:induction false} RecordAtBound(d: seq<Byte>, p: nat, v: seq<Byte>, limit: nat)
    requires limit >= 2 && NEWLINE !in v && |v| == limit - 1
    requires p + |v| + 1 <= |d| && d[p..p + |v| + 1] == v + [NEWLINE]
    ensures RecordAt(d, p, limit) == v
  {
    var q := p + |v|;
    forall k | p <= k < q
      ensures d[k] == v[k - p]
    {
      assert d[k] == d[p..p + |v| + 1][k - p];
    }
    assert forall k :: p <= k < q - 1 ==> d[k] != NEWLINE;
    NextLineIs(d, p, limit, q);
    assert d[p..q] == v;
    assert RecordAt(d, p, limit) == TrimEol(v);
  }

  /** offsetSet on a line the index knows, under the lock, is the rewrite
      of that line on the learned index. */
  lemma KnownLineSet(e: Editor, i: nat, v: Option<seq<Byte>>)
    requires WellFormed(e) && e.mode == Line && !e.closed
    requires i < |Learned(e, i).0|
    ensures OffsetSet(e, Index(i), if v.Some? then Str(v.value) else Null, true)
            == WriteKnownLine(e.(stream := Learned(e, i).1), Learned(e, i).0, i, v)
  {
  }

  /** For a string value on a known line, the last-line, same-length and
      staged branches agree: the old record is replaced by the value and
      one newline, and the bytes before and after it are kept. An entry
      past the end of the file gets the value after a zero gap. The write
      fails only where the staged rewrite's prefix read has length 0, and
      then no byte changes. */
  lemma {:induction false} LineSetSplices(e: Editor, i: nat, v: seq<Byte>)
    requires WellFormed(e) && e.mode == Line && !e.closed
    requires i < |Learned(e, i).0|
    ensures var data := e.stream.data;
            var p := Learned(e, i).0[i];
            var r := OffsetSet(e, Index(i), Str(v), true);
            && (r.result.Err? <==> PrefixReadFails(data, i, p, Some(v), e.size))
            && (r.result.Err? ==> r.next.stream.data == data)
            && (r.result.Ok? && p <= |data| ==>
                  r.next.stream.data == data[..p] + v + [NEWLINE] + data[NextLine(data, p, e.size)..])
            && (p > |data| ==> r.next.stream.data == data + Zeros(p - |data|) + v + [NEWLINE])
  {
    var (m, s) := Learned(e, i);
    KnownLineSet(e, i, Some(v));
    KnownLineStringWrite(e.(stream := s), m, i, v);
  }

  /** LineWritten for a string value: both terminators are a newline. */
  lemma KnownLineStringWrite(e: Editor, m: seq<nat>, i: nat, v: seq<Byte>)
    requires WellFormed(e) && e.mode == Line && i < |m| && m[0] == 0
    ensures var data := e.stream.data;
            var p := m[i];
            var r := WriteKnownLine(e, m, i, Some(v));
            && (r.result.Err? <==> PrefixReadFails(data, i, p, Some(v), e.size))
            && (r.result.Err? ==> r.next.stream.data == data)
            && (r.result.Ok? && p <= |data| ==>
                  r.next.stream.data == data[..p] + v + [NEWLINE] + data[NextLine(data, p, e.size)..])
            && (p > |data| ==> r.next.stream.data == data + Zeros(p - |data|) + v + [NEWLINE])
  {
    KnownLineWritten(e, m, i, Some(v));
    assert Terminated(Some(v)) == StagedReplacement(Some(v)) == v + [NEWLINE];
  }
  /** Writing a known line keeps the line's own offset in the index when
      the write does not take the staged rewrite, or when it is line 0,
      whose offset the reset index {0: 0} still holds. */
  lemma {:induction false} LineSetIndex(e: Editor, i: nat, v: seq<Byte>)
    requires WellFormed(e) && e.mode == Line && !e.closed
    requires i < |Learned(e, i).0|
    requires i == 0 || !StagedLine(e.stream.data, Learned(e, i).0[i], Some(v), e.size)
    ensures var r := OffsetSet(e, Index(i), Str(v), true);
            r.result.Ok? && i < |r.next.lines| && r.next.lines[i] == Learned(e, i).0[i]
  {
    var (m, s) := Learned(e, i);
    KnownLineSet(e, i, Some(v));
    KnownLineWritten(e.(stream := s), m, i, Some(v));
  }

  /** Line-mode offsetGet of a line the index already knows reads the
      record at that line's offset, without learning anything. */
  lemma GetKnownLine(e: Editor, i: nat)
    requires WellFormed(e) && e.mode == Line && !e.closed && i < |e.lines|
    ensures OffsetGet(e, Index(i)).result == Ok(Some(RecordAt(e.stream.data, e.lines[i], e.size)))
  {
  }

  /** On an editor whose index puts line i at p, where v and a newline
      have been written: offsetGet(i) reads v. */
  lemma WrittenLineReadBack(e: Editor, i: nat, p: nat, v: seq<Byte>)
    requires WellFormed(e) && e.mode == Line && !e.closed && i < |e.lines| && e.lines[i] == p
    requires NEWLINE !in v && |v| <= e.size - 1
    requires p + |v| + 1 <= |e.stream.data| && e.stream.data[p..p + |v| + 1] == v + [NEWLINE]
    ensures OffsetGet(e, Index(i)).result == Ok(Some(v))
  {
    GetKnownLine(e, i);
    RecordOfWrittenLine(e.stream.data, p, v, e.size);
  }

  /** On the bytes: after a record is spliced in at p, it sits at p. */
  lemma SplicedRecord(data: seq<Byte>, p: nat, q: nat, v: seq<Byte>, d: seq<Byte>)
    requires p <= |data| && q <= |data|
    requires d == data[..p] + v + [NEWLINE] + data[q..]
    ensures p + |v| + 1 <= |d| && d[p..p + |v| + 1] == v + [NEWLINE]
  {
  }

  /** On the bytes: a record written at p after a gap up to p sits at p. */
  lemma PaddedRecord(data: seq<Byte>, p: nat, v: seq<Byte>, d: seq<Byte>)
    requires p > |data| && d == data + Zeros(p - |data|) + v + [NEWLINE]
    ensures p + |v| + 1 <= |d| && d[p..p + |v| + 1] == v + [NEWLINE]
  {
  }

  /** A string value on a line the index knows, of at most limit - 1
      bytes and without newlines of its own, reads back unchanged, unless
      the write was a staged rewrite of a line other than 0, which resets
      the index. That includes a line whose entry lies past the end of the
      file. */
  lemma {:induction false} LineSetThenGet(e: Editor, i: nat, v: seq<Byte>)
    requires WellFormed(e) && e.mode == Line && !e.closed
    requires NEWLINE !in v && |v| <= e.size - 1
    requires i < |Learned(e, i).0|
    requires i == 0 || !StagedLine(e.stream.data, Learned(e, i).0[i], Some(v), e.size)
    ensures OffsetGet(OffsetSet(e, Index(i), Str(v), true).next, Index(i)).result == Ok(Some(v))
  {
    var data := e.stream.data;
    var p := Learned(e, i).0[i];
    var e1 := OffsetSet(e, Index(i), Str(v), true).next;
    LineSetSplices(e, i, v);
    LineSetIndex(e, i, v);
    if p <= |data| {
      SplicedRecord(data, p, NextLine(data, p, e.size), v, e1.stream.data);
    } else {
      PaddedRecord(data, p, v, e1.stream.data);
    }
    WrittenLineReadBack(e1, i, p, v);
  }

  /** On the bytes: the pad written up to line i ends in a run of newlines
      after the last known offset, followed by the value. */
  lemma PadBytes(data: seq<Byte>, last: nat, n: nat, v: seq<Byte>, d: seq<Byte>)
    requires last >= |data| && d == data + Zeros(last - |data|) + Newlines(n) + v
    ensures LineIndex.NewlineRun(d, last, n)
    ensures |d| == last + n + |v| && d[last + n..] == v
  {
  }

  /** Writing a line past every line the file has pads the file with empty
      lines up to it, and reading that line back gives the value, for a
      value short enough for one fgets and without newlines. */
  lemma {:induction false} PadThenGet(e: Editor, i: nat, v: seq<Byte>)
    requires WellFormed(e) && e.mode == Line && !e.closed
    requires i >= |Learned(e, i).0|
    requires NEWLINE !in v && |v| <= e.size - 1
    ensures OffsetGet(OffsetSet(e, Index(i), Str(v), true).next, Index(i)).result == Ok(Some(v))
  {
    var m := Learned(e, i).0;
    var e1 := OffsetSet(e, Index(i), Str(v), true).next;
    PadSet(e, i, v);
    PadBytes(e.stream.data, m[|m| - 1], i - (|m| - 1), v, e1.stream.data);
    GetAfterPad(e1, i, v);
  }

  /** The pad write under the lock: the bytes LineWritten gives for an
      unknown line, on the learned index. */
  lemma PadSet(e: Editor, i: nat, v: seq<Byte>)
    requires WellFormed(e) && e.mode == Line && !e.closed
    requires i >= |Learned(e, i).0|
    ensures var m := Learned(e, i).0;
            var r := OffsetSet(e, Index(i), Str(v), true).next;
            && m[|m| - 1] >= |e.stream.data|
            && r.stream.data == e.stream.data + Zeros(m[|m| - 1] - |e.stream.data|) + Newlines(i - (|m| - 1)) + v
            && r.lines == m && r.size == e.size && r.mode == Line && !r.closed
  {
  }

  /** Reading line i back from a file where the last known line is
      followed by newlines up to line i and then the value: the index
      learns one line per newline and lands on the value. */
  lemma GetAfterPad(e: Editor, i: nat, v: seq<Byte>)
    requires WellFormed(e) && e.mode == Line && !e.closed && i >= |e.lines|
    requires NEWLINE !in v && |v| <= e.size - 1
    requires var last := e.lines[|e.lines| - 1];
             var n := i - (|e.lines| - 1);
             && LineIndex.NewlineRun(e.stream.data, last, n)
             && |e.stream.data| == last + n + |v| && e.stream.data[last + n..] == v
    ensures OffsetGet(e, Index(i)).result == Ok(Some(v))
  {
    var p := e.lines[|e.lines| - 1] + (i - (|e.lines| - 1));
    LearnedOverNewlines(e, i);
    PaddedLineRecord(e.stream.data, p, v, e.size);
    GetLearnedLine(e, i, p, v);
  }

  /** Line-mode offsetGet of a line mapToLine learns at p reads the record
      at p. */
  lemma GetLearnedLine(e: Editor, i: nat, p: nat, v: seq<Byte>)
    requires WellFormed(e) && e.mode == Line && !e.closed
    requires i < |Learned(e, i).0| && Learned(e, i).0[i] == p && RecordAt(e.stream.data, p, e.size) == v
    ensures OffsetGet(e, Index(i)).result == Ok(Some(v))
  {
  }

  /** mapToLine(i) over newlines up to line i learns line i just past
      them. */
  lemma LearnedOverNewlines(e: Editor, i: nat)
    requires WellFormed(e) && e.mode == Line && i >= |e.lines|
    requires LineIndex.NewlineRun(e.stream.data, e.lines[|e.lines| - 1], i - (|e.lines| - 1))
    ensures var m := Learned(e, i).0;
            |m| == i + 1 && m[i] == e.lines[|e.lines| - 1] + (i - (|e.lines| - 1))
  {
    LineIndex.MapOverNewlines(e.stream, e.lines, i, e.size);
  }

  /** On the bytes: a last line without a newline, short enough for one
      fgets, reads back whole; an empty one reads as empty. */
  lemma PaddedLineRecord(d: seq<Byte>, p: nat, v: seq<Byte>, limit: nat)
    requires limit >= 2 && NEWLINE !in v && |v| <= limit - 1
    requires |d| == p + |v| && d[p..] == v
    ensures RecordAt(d, p, limit) == v
  {
    if |v| > 0 {
      forall k | p <= k < |d| - 1
        ensures d[k] != NEWLINE
      {
        assert d[k] == v[k - p];
      }
      NextLineIs(d, p, limit, |d|);
    }
  }

  /** On a fresh index ({0: 0}), line-mode exists(i) holds exactly for i up
      to the number of records, and always for 0 and 1: the offset mapToLine
      records at the end of the file counts as a line. */
  lemma {:induction false} FreshLineExists(data: seq<Byte>, limit: nat, i: nat)
    requires limit >= 2
    ensures var e := Editor(Stream(data, 0), Line, limit, [0], 0, false);
            OffsetExists(e, Index(i)).result == Ok(i <= Max(1, |LineIndex.Records(data, 0, limit)|))
  {
    if i >= 1 {
      FreshIndexLength(data, limit, i);
    }
  }

  /** How long the index grows when mapToLine(i) starts from {0: 0}. */
  lemma FreshIndexLength(data: seq<Byte>, limit: nat, i: nat)
    requires limit >= 2 && i >= 1
    ensures |LineIndex.MapToLine(Stream(data, 0), [0], i, limit).0|
            == 1 + Min(i, Max(1, |LineIndex.Records(data, 0, limit)|))
  {
    var m: seq<nat> := [0];
    assert LineIndex.MapToLine(Stream(data, 0), m, i, limit).0 == LineIndex.Extend(data, m, i, limit);
    LineIndex.ExtendLength(data, m, i, limit);
    LineIndex.RecordCountLength(data, 0, limit);
  }

  /** Deleting a line that is not the last one, when it is not empty,
      takes the staged rewrite: the line's bytes and newline become "1",
      which joins the following line, and the index is reset. Only a line
      other than 0 that the index puts at offset 0 fails instead, at the
      zero-length prefix read, and then the file is unchanged. */
  lemma {:induction false} LineUnsetWritesOne(e: Editor, i: nat)
    requires WellFormed(e) && e.mode == Line && !e.closed
    requires i < |Learned(e, i).0|
    requires var p := Learned(e, i).0[i];
             var q := NextLine(e.stream.data, p, e.size);
             p < |e.stream.data| && q < |e.stream.data| && q - p >= 2
    ensures var data := e.stream.data;
            var p := Learned(e, i).0[i];
            var r := OffsetUnset(e, Index(i), true);
            && (r.result.Ok? <==> i == 0 || p != 0)
            && (r.result.Ok? ==>
                  && r.next.stream.data == data[..p] + [TRUE_AS_STRING] + data[NextLine(data, p, e.size)..]
                  && r.next.lines == [0])
            && (r.result.Err? ==> r.result == Err(ZeroLengthRead) && r.next.stream.data == data)
  {
    var (m, s) := Learned(e, i);
    KnownLineSet(e, i, None);
    KnownLineDelete(e.(stream := s), m, i);
  }

  /** On WriteKnownLine: deleting a non-empty line that is not the last
      takes the staged branch, which fails only at a zero-length prefix
      read. */
  lemma KnownLineDelete(e: Editor, m: seq<nat>, i: nat)
    requires WellFormed(e) && e.mode == Line && i < |m| && m[0] == 0
    requires var q := NextLine(e.stream.data, m[i], e.size);
             m[i] < |e.stream.data| && q < |e.stream.data| && q - m[i] >= 2
    ensures var data := e.stream.data;
            var r := WriteKnownLine(e, m, i, None);
            && (r.result.Ok? <==> i == 0 || m[i] != 0)
            && (r.result.Ok? ==>
                  && r.next.stream.data == data[..m[i]] + [TRUE_AS_STRING] + data[NextLine(data, m[i], e.size)..]
                  && r.next.lines == [0])
            && (r.result.Err? ==> r.result == Err(ZeroLengthRead) && r.next.stream.data == data)
  {
    KnownLineWritten(e, m, i, None);
    assert StagedLine(e.stream.data, m[i], None, e.size);
    assert StagedReplacement(None) == [TRUE_AS_STRING];
  }

  /** Deleting the last line of the file leaves an empty line: the record
      becomes a lone newline and the index is kept. */
  lemma {:induction false} LineUnsetLastLeavesNewline(e: Editor, i: nat)
    requires WellFormed(e) && e.mode == Line && !e.closed
    requires i < |Learned(e, i).0|
    requires var p := Learned(e, i).0[i];
             p < |e.stream.data| && NextLine(e.stream.data, p, e.size) == |e.stream.data|
    ensures var data := e.stream.data;
            var r := OffsetUnset(e, Index(i), true).next;
            && r.stream.data == data[..Learned(e, i).0[i]] + [NEWLINE]
            && r.lines == Learned(e, i).0
  {
    KnownLineSet(e, i, None);
  }

  // ---------------------------------------------------------------------
  // Both modes

  /** Append takes no lock, so the lock's outcome does not matter. */
  lemma AppendIgnoresLock(e: Editor, v: Value)
    requires WellFormed(e)
    ensures OffsetSet(e, NullOffset, v, true) == OffsetSet(e, NullOffset, v, false)
  {
  }

  /** Closing twice is closing once. */
  lemma CloseTwice(e: Editor)
    ensures Close(Close(e)) == Close(e)
  {
  }

  /** One round of a foreach, entered after valid() said true: current(),
      key(), the loop body's optional offsetGet, next(), and the valid()
      that decides whether another round follows. */
  function Round(e: Editor, probe: Option<nat>): (r: (seq<Byte>, nat, Step<bool>))
    requires WellFormed(e) && !e.closed
    requires e.mode == Line ==> e.cursor < |e.lines|
    ensures var n := r.2.next;
      && WellFormed(n) && !n.closed && n.mode == e.mode && n.size == e.size
      && n.stream.data == e.stream.data && n.cursor == e.cursor + 1 && r.1 == e.cursor
    ensures e.mode == Chunk ==>
      && r.0 == ChunkAt(e.stream.data, e.size, e.cursor)
      && r.2.result == Ok(e.size * r.2.next.cursor < |e.stream.data|)
    ensures e.mode == Line ==>
      var n := r.2.next;
      && r.0 == RecordAt(e.stream.data, e.lines[e.cursor], e.size)
      && n.cursor < |n.lines|
      && n.lines[n.cursor] == NextLine(e.stream.data, e.lines[e.cursor], e.size)
      && r.2.result == Ok(n.lines[n.cursor] < |e.stream.data|)
  {
    var current := Current(e);
    var key := Key(current.next);
    var e1 := Probe(current.next, probe);
    var valid := Valid(Next(e1));
    (current.result.value, key, valid)
  }

  /** The loop body's optional offsetGet: whatever it reads, the file and
      the cursor stay, and the index only grows. */
  function Probe(e: Editor, probe: Option<nat>): (r: Editor)
    requires WellFormed(e)
    ensures WellFormed(r) && Keeps(e, r) && r.stream.data == e.stream.data
    ensures |e.lines| <= |r.lines| && r.lines[..|e.lines|] == e.lines
  {
    if probe.Some? then OffsetGet(e, Index(probe.value)).next else e
  }

  /** What a traversal of the file of e0 has done when it stands at e with
      `values` yielded and valid() answered `valid`: the values so far and
      the ones ahead make up all the chunks or all the records. */
  ghost predicate Yielded(e0: Editor, e: Editor, values: seq<seq<Byte>>, valid: Result<bool>)
    requires WellFormed(e0)
  {
    var data := e0.stream.data;
    var c := e0.size;
    && WellFormed(e) && !e.closed && e.mode == e0.mode && e.size == c && e.stream.data == data
    && e.cursor == |values|
    && (e.mode == Chunk ==>
          && valid == Ok(c * e.cursor < |data|)
          && ChunksFrom(data, c, 0) == values + ChunksFrom(data, c, c * e.cursor))
    && (e.mode == Line ==>
          && e.cursor < |e.lines| && e.lines[e.cursor] <= |data|
          && valid == Ok(e.lines[e.cursor] < |data|)
          && LineIndex.Records(data, 0, c) == values + LineIndex.Records(data, e.lines[e.cursor], c))
  }

  /** How far a traversal standing at e still has to go. */
  ghost function Remaining(e: Editor): int {
    if e.mode == Chunk then |e.stream.data| - e.size * e.cursor
    else if e.cursor < |e.lines| then |e.stream.data| - e.lines[e.cursor]
    else 0
  }

  /** A round in chunk mode keeps Yielded and moves one chunk on. */
  lemma ChunkRoundStep(e0: Editor, e: Editor, values: seq<seq<Byte>>, probe: Option<nat>)
    requires WellFormed(e0) && e0.mode == Chunk && Yielded(e0, e, values, Ok(true))
    ensures var (value, key, next) := Round(e, probe);
            && key == |values|
            && Yielded(e0, next.next, values + [value], next.result)
            && 0 <= Remaining(next.next) + e.size && Remaining(next.next) < Remaining(e)
  {
    ChunkRound(e0.stream.data, e0.size, values, e.cursor);
    MulSucc(e0.size, e.cursor);
  }

  /** A round in line mode keeps Yielded and moves one record on. */
  lemma LineRoundStep(e0: Editor, e: Editor, values: seq<seq<Byte>>, probe: Option<nat>)
    requires WellFormed(e0) && e0.mode == Line && Yielded(e0, e, values, Ok(true))
    ensures var (value, key, next) := Round(e, probe);
            && key == |values|
            && Yielded(e0, next.next, values + [value], next.result)
            && 0 <= Remaining(next.next) + e.size && Remaining(next.next) < Remaining(e)
  {
    LineRound(e0.stream.data, e0.size, values, e.lines[e.cursor]);
  }

  /** One round of the foreach on a traversal that has yielded `values`:
      it yields the next chunk or record under the next key and gets
      closer to the end. */
  method ForeachRound(ghost e0: Editor, e: Editor, ghost values: seq<seq<Byte>>, probe: Option<nat>)
    returns (value: seq<Byte>, key: nat, next: Step<bool>)
    requires WellFormed(e0) && Yielded(e0, e, values, Ok(true))
    ensures key == |values|
    ensures Yielded(e0, next.next, values + [value], next.result)
    ensures 0 <= Remaining(next.next) + e0.size && Remaining(next.next) < Remaining(e)
  {
    if e.mode == Chunk {
      ChunkRoundStep(e0, e, values, probe);
    } else {
      LineRoundStep(e0, e, values, probe);
    }
    var round := Round(e, probe);
    value, key, next := round.0, round.1, round.2;
  }

  /** rewind() then valid() start a traversal with nothing yielded. */
  lemma TraversalStarts(e0: Editor)
    requires WellFormed(e0) && !e0.closed
    ensures var valid := Valid(Rewind(e0).next);
            Yielded(e0, valid.next, [], valid.result)
  {
    assert e0.size * 0 == 0;
  }

  /** A traversal that valid() ends has yielded everything. */
  lemma TraversalEnds(e0: Editor, e: Editor, values: seq<seq<Byte>>)
    requires WellFormed(e0) && Yielded(e0, e, values, Ok(false))
    ensures e.stream.data == e0.stream.data
    ensures e0.mode == Chunk ==> values == ChunksFrom(e0.stream.data, e0.size, 0)
    ensures e0.mode == Line ==> values == LineIndex.Records(e0.stream.data, 0, e0.size)
  {
  }

  /** A foreach over the editor as PHP runs it: rewind, then valid, and
      rounds of current, key, an optional offsetGet in the loop body, next
      and valid until valid is false. The values are the file's chunks or
      its trimmed records, in order, whatever the interleaved read did to
      the file pointer and the line index; the keys are 0, 1, 2, ...; the
      file is not changed. */
  method Traverse(e0: Editor, probe: Option<nat>) returns (keys: seq<nat>, values: seq<seq<Byte>>, e: Editor)
    requires WellFormed(e0) && !e0.closed
    ensures e.stream.data == e0.stream.data
    ensures |keys| == |values|
    ensures forall j :: 0 <= j < |keys| ==> keys[j] == j
    ensures e0.mode == Chunk ==> values == ChunksFrom(e0.stream.data, e0.size, 0)
    ensures e0.mode == Line ==> values == LineIndex.Records(e0.stream.data, 0, e0.size)
  {
    var valid := Valid(Rewind(e0).next);
    e := valid.next;
    keys, values := [], [];
    TraversalStarts(e0);
    while valid.result == Ok(true)
      invariant Yielded(e0, e, values, valid.result)
      invariant |keys| == |values|
      invariant forall j :: 0 <= j < |keys| ==> keys[j] == j
      decreases Remaining(e) + e0.size
    {
      var value, key, next := ForeachRound(e0, e, values, probe);
      keys := keys + [key];
      values := values + [value];
      valid := next;
      e := next.next;
    }
    TraversalEnds(e0, e, values);
  }
}
