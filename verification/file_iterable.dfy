/** FileIterable: a flat file exposed as an array of fixed-width byte chunks
    (mode "chunk") or of newline-terminated lines (any other mode), with
    get, exists, set, unset and append by index, and a forward cursor.
    Every operation is a transition on an immutable Editor value; the lock
    is an input saying whether flock(LOCK_EX) succeeded. */
module FileIterable {
  import opened Stream
  import LineIndex

  datatype Mode = Chunk | Line

  /** The constructor's mode string: "chunk" selects chunks, any other
      string selects lines. */
  function ModeOf(name: string): (m: Mode)
    ensures m == Chunk <==> name == "chunk"
  {
    if name == "chunk" then Chunk else Line
  }

  /** `size` is the chunk width (chunk mode) or the fgets bound (line mode);
      `lines` is the line index (entry j is where line j starts); `cursor`
      is the iterator's increment. */
  datatype Editor = Editor(
    stream: Stream,
    mode: Mode,
    size: nat,
    lines: seq<nat>,
    cursor: nat,
    closed: bool)

  /** What every editor satisfies: a chunk width of at least one byte, an
      fgets bound of at least two (so every read makes progress), and a line
      index that always holds line 0 at offset 0. */
  predicate WellFormed(e: Editor) {
    && (if e.mode == Chunk then e.size >= 1 else e.size >= 2)
    && |e.lines| >= 1
    && e.lines[0] == 0
  }

  /** Mode, size, cursor and closed flag: what no array operation changes. */
  predicate Keeps(e: Editor, r: Editor) {
    r.mode == e.mode && r.size == e.size && r.cursor == e.cursor && r.closed == e.closed
  }

  /** InvalidArgument: a key or value of the wrong type. LockedOut: flock
      failed. ClosedResource: PHP's TypeError for a stream call on a closed
      handle. NullAppend: PHP's TypeError for passing null to handleAppend's
      string parameter. UnmappedLine: a line-index entry that does not
      exist is read. ZeroLengthRead: PHP 8's ValueError for fread with a
      length of 0. */
  datatype Error = InvalidArgument | LockedOut | ClosedResource | NullAppend | UnmappedLine | ZeroLengthRead

  datatype Result<+T> = Ok(value: T) | Err(error: Error)

  /** The outcome of an operation and the editor after it. */
  datatype Step<+T> = Step(result: Result<T>, next: Editor)

  /** An array offset: an integer index, null (`$file[] = ...`), or anything
      else. */
  datatype Offset = Index(i: nat) | NullOffset | NonInt

  /** An assigned value: a string, null, or anything else. */
  datatype Value = Str(bytes: seq<Byte>) | Null | NonString

  /** What `(string) true` prints: the staged line rewrite writes it after
      a deleted line's empty value. */
  const TRUE_AS_STRING: Byte := 0x31

  /** Chunk i of the file, as offsetGet returns it for an index inside the
      file: c bytes, fewer for the final chunk. */
  function ChunkAt(data: seq<Byte>, c: nat, i: nat): seq<Byte>
    requires c >= 1
  {
    ChunkFrom(data, c * i, c)
  }

  /** The c bytes from offset a, fewer at the end of the file, none past
      it: a chunk named by its offset rather than its index. */
  function ChunkFrom(data: seq<Byte>, a: nat, c: nat): seq<Byte> {
    if a < |data| then data[a..Min(a + c, |data|)] else []
  }

  /** Line j as offsetGet returns it when it starts at p: the fgets record
      with its newlines trimmed, empty at or past the end of the file. */
  function RecordAt(data: seq<Byte>, p: nat, limit: nat): seq<Byte>
    requires limit >= 2
  {
    if p < |data| then TrimEol(data[p..NextLine(data, p, limit)]) else []
  }

  /** Chunk x + 1 starts one chunk after chunk x. */
  lemma MulSucc(c: nat, x: nat)
    ensures c * (x + 1) == c * x + c
  {
  }

  /** The bytes between lo and hi replaced by v. */
  function Splice(data: seq<Byte>, lo: nat, hi: nat, v: seq<Byte>): (r: seq<Byte>)
    requires lo <= hi <= |data|
    ensures |r| == |data| - (hi - lo) + |v|
  {
    data[..lo] + v + data[hi..]
  }

  /** The constructor: the handle comes in at offset 0, the index knows
      line 0 only, the cursor is at 0. */
  function Open(data: seq<Byte>, modeName: string, size: nat): (e: Editor)
    requires if modeName == "chunk" then size >= 1 else size >= 2
    ensures WellFormed(e) && !e.closed
    ensures e.mode == Chunk <==> modeName == "chunk"
    ensures e.stream == Stream(data, 0) && e.lines == [0] && e.cursor == 0
  {
    Editor(Stream(data, 0), ModeOf(modeName), size, [0], 0, false)
  }

  /** close(): fclose only while the handle is still a resource, so
      closing twice is harmless. */
  function Close(e: Editor): (r: Editor)
    ensures r.closed
    ensures r.(closed := e.closed) == e
  {
    if e.closed then e else e.(closed := true)
  }

  /** The line index after mapToLine(i), and the stream it leaves. */
  function Learned(e: Editor, i: nat): (seq<nat>, Stream)
    requires WellFormed(e) && e.mode == Line
  {
    LineIndex.MapToLine(e.stream, e.lines, i, e.size)
  }

  // ---------------------------------------------------------------------
  // Reading by index

  /** offsetExists. Chunk mode: seek to the chunk and probe. Line mode:
      learn the index up to the key and ask whether the key is in it, so
      the answer depends on what the index already knows. */
  function OffsetExists(e: Editor, k: Offset): (r: Step<bool>)
    requires WellFormed(e)
    ensures WellFormed(r.next)
    ensures r.next.stream.data == e.stream.data
    ensures Keeps(e, r.next)
    ensures r.result == Err(InvalidArgument) <==> !k.Index?
    ensures r.result.Err? ==> r.next == e
    ensures k.Index? && e.mode == Chunk ==>
      r.result == if e.closed then Err(ClosedResource) else Ok(e.size * k.i < |e.stream.data|)
    ensures k.Index? && e.mode == Line && k.i < |e.lines| ==> r == Step(Ok(true), e)
    ensures k.Index? && e.mode == Line && k.i >= |e.lines| && e.closed ==> r.result == Err(ClosedResource)
    ensures k.Index? && e.mode == Line && k.i >= |e.lines| && !e.closed ==>
      && r.next.lines == Learned(e, k.i).0
      && r.result == Ok(k.i < |r.next.lines|)
    ensures k.Index? && e.mode == Line && k.i == |e.lines| && !e.closed ==> r.result == Ok(true)
  {
    if !k.Index? then Step(Err(InvalidArgument), e)
    else if e.mode == Chunk then
      if e.closed then Step(Err(ClosedResource), e)
      else
        var s := Seek(e.stream, e.size * k.i);
        Step(Ok(!ProbeEnd(s)), e.(stream := s))
    else if k.i < |e.lines| then
      Step(Ok(true), e)
    else if e.closed then Step(Err(ClosedResource), e)
    else
      var (m, s) := LineIndex.MapToLine(e.stream, e.lines, k.i, e.size);
      Step(Ok(k.i < |m|), e.(stream := s, lines := m))
  }

  /** offsetGet. Chunk mode: null past the end, otherwise fread of one
      chunk. Line mode: learn the index, then fgets from the line's offset
      and trim the newline. */
  function OffsetGet(e: Editor, k: Offset): (r: Step<Option<seq<Byte>>>)
    requires WellFormed(e)
    ensures WellFormed(r.next)
    ensures r.next.stream.data == e.stream.data
    ensures Keeps(e, r.next)
    ensures r.result == Err(InvalidArgument) <==> !k.Index?
    ensures r.result.Err? && r.result.error != UnmappedLine ==> r.next == e
    ensures k.Index? && e.closed ==> r.result == Err(ClosedResource)
    ensures k.Index? && !e.closed && e.mode == Chunk ==>
      r.result == Ok(if e.size * k.i < |e.stream.data| then Some(ChunkAt(e.stream.data, e.size, k.i)) else None)
    ensures k.Index? && !e.closed && e.mode == Line ==>
      && r.next.lines == Learned(e, k.i).0
      && r.result == if k.i < |r.next.lines|
                     then Ok(Some(RecordAt(e.stream.data, r.next.lines[k.i], e.size)))
                     else Err(UnmappedLine)
  {
    if !k.Index? then Step(Err(InvalidArgument), e)
    else if e.closed then Step(Err(ClosedResource), e)
    else if e.mode == Chunk then ReadChunk(e, k.i)
    else ReadLine(e, k.i)
  }

  /** offsetGet's chunk branch: seek to the chunk, probe, fread. */
  function ReadChunk(e: Editor, i: nat): (r: Step<Option<seq<Byte>>>)
    requires WellFormed(e) && e.mode == Chunk && !e.closed
    ensures WellFormed(r.next) && Keeps(e, r.next)
    ensures r.next.stream.data == e.stream.data && r.next.lines == e.lines
    ensures r.result == Ok(if e.size * i < |e.stream.data| then Some(ChunkAt(e.stream.data, e.size, i)) else None)
  {
    var s := Seek(e.stream, e.size * i);
    if ProbeEnd(s) then Step(Ok(None), e.(stream := s))
    else
      var (b, s1) := Read(s, e.size);
      Step(Ok(Some(b)), e.(stream := s1))
  }

  /** offsetGet's line branch: mapToLine, seek to the line, fgets, trim. */
  function ReadLine(e: Editor, i: nat): (r: Step<Option<seq<Byte>>>)
    requires WellFormed(e) && e.mode == Line && !e.closed
    ensures WellFormed(r.next) && Keeps(e, r.next)
    ensures r.next.stream.data == e.stream.data
    ensures r.next.lines == Learned(e, i).0
    ensures r.result == if i < |r.next.lines|
                        then Ok(Some(RecordAt(e.stream.data, r.next.lines[i], e.size)))
                        else Err(UnmappedLine)
  {
    var (m, s) := LineIndex.MapToLine(e.stream, e.lines, i, e.size);
    if i >= |m| then Step(Err(UnmappedLine), e.(stream := s, lines := m))
    else
      var (line, s1) := Gets(Seek(s, m[i]), e.size);
      Step(Ok(Some(TrimEol(line.GetOr([])))), e.(stream := s1, lines := m))
  }

  // ---------------------------------------------------------------------
  // Writing

  /** The copy loop of a chunk rewrite: until the probe reports the end,
      fread one chunk at a time. */
  function CopyChunks(s: Stream, c: nat): (r: (seq<Byte>, Stream))
    requires c >= 1
    ensures r.1.data == s.data
    ensures s.pos <= |s.data| ==> r.0 == s.data[s.pos..]
    ensures s.pos > |s.data| ==> r.0 == []
    decreases |s.data| - s.pos
  {
    if ProbeEnd(s) then ([], s)
    else
      var (b, s1) := Read(s, c);
      var (rest, s2) := CopyChunks(s1, c);
      (b + rest, s2)
  }

  /** The copy loop of a line rewrite: until the probe reports the end,
      fgets one record at a time. */
  function CopyLines(s: Stream, limit: nat): (r: (seq<Byte>, Stream))
    requires limit >= 2
    ensures r.1.data == s.data
    ensures s.pos <= |s.data| ==> r.0 == s.data[s.pos..]
    ensures s.pos > |s.data| ==> r.0 == []
    decreases |s.data| - s.pos
  {
    if ProbeEnd(s) then ([], s)
    else
      var (line, s1) := Gets(s, limit);
      var (rest, s2) := CopyLines(s1, limit);
      (line.GetOr([]) + rest, s2)
  }

  /** The staged rewrite of a chunk that is neither at the end nor the last
      one: into a temporary buffer go the chunks before it, the value, and
      every byte from the next chunk on; the buffer then replaces the file. */
  function StagedChunkRewrite(s: Stream, i: nat, v: seq<Byte>, c: nat): (r: Stream)
    requires c >= 1 && c * (i + 1) < |s.data|
    ensures r.data == Splice(s.data, c * i, c * (i + 1), v)
  {
    MulSucc(c, i);
    var (prefix, s2) := ChunkPrefix(Seek(s, 0), c, i);
    var (rest, s3) := CopyChunks(Seek(s2, c * (i + 1)), c);
    ReplaceContents(s3, prefix + v + rest)
  }

  /** The chunks before chunk i, read from offset 0: one fread of c * i
      bytes, skipped for chunk 0. */
  function ChunkPrefix(s: Stream, c: nat, i: nat): (r: (seq<Byte>, Stream))
    requires c >= 1 && s.pos == 0 && c * i <= |s.data|
    ensures r.0 == s.data[..c * i] && r.1 == s.(pos := c * i)
  {
    if i != 0 then MulSucc(c, i - 1); Read(s, c * i) else ([], s)
  }

  /** The writing part of handleChunkWrite, on the stream alone. */
  function ChunkWrite(s: Stream, i: nat, v: seq<Byte>, c: nat): (r: Stream)
    requires c >= 1
    ensures r.data ==
      if c * i < |s.data| then Splice(s.data, c * i, Min(c * (i + 1), |s.data|), v) else s.data + v
  {
    var lo := c * i;
    var hi := c * (i + 1);
    MulSucc(c, i);
    var s0 := Seek(s, hi);
    var lastChunk := ProbeEnd(s0);
    var s1 := Seek(s0, lo);
    if ProbeEnd(s1) then WriteAtEnd(s1, v)
    else if |v| == c then Write(s1, v)
    else if lastChunk then WriteLast(s1, v)
    else StagedChunkRewrite(s1, i, v, c)
  }

  /** handleChunkWrite: under the lock, a chunk at or past the end of the
      file is appended at the end whatever its index; a value of exactly
      one chunk's width is written in place; the last chunk is rewritten
      and the file cut after it; any other chunk goes through the staged
      rewrite. All branches amount to one splice. */
  function HandleChunkWrite(e: Editor, i: nat, v: seq<Byte>, locked: bool): (r: Step<()>)
    requires WellFormed(e) && e.mode == Chunk
    ensures WellFormed(r.next)
    ensures Keeps(e, r.next) && r.next.lines == e.lines
    ensures e.closed ==> r == Step(Err(ClosedResource), e)
    ensures !e.closed && !locked ==> r == Step(Err(LockedOut), e)
    ensures !e.closed && locked ==> r.result == Ok(())
    ensures !e.closed && locked ==>
      var data := e.stream.data;
      var c := e.size;
      r.next.stream.data ==
        if c * i < |data| then Splice(data, c * i, Min(c * (i + 1), |data|), v) else data + v
  {
    if e.closed then Step(Err(ClosedResource), e)
    else if !locked then Step(Err(LockedOut), e)
    else
      Step(Ok(()), e.(stream := ChunkWrite(e.stream, i, v, e.size)))
  }

  /** The staged rewrite of a line that starts at p and is not the last
      one: into a temporary buffer go the bytes before p, the replacement,
      and every record after the old line (skipped with one fgets); the
      buffer then replaces the file. For a line other than 0 the bytes
      before it are read with one fread of length p, which PHP 8 refuses
      for p = 0; WriteKnownLine handles that case before getting here. */
  function StagedLineRewrite(s: Stream, i: nat, p: nat, replacement: seq<Byte>, limit: nat): (r: Stream)
    requires limit >= 2 && p < |s.data| && (i == 0 ==> p == 0) && (i != 0 ==> p >= 1)
    ensures r.data == s.data[..p] + replacement + s.data[NextLine(s.data, p, limit)..]
  {
    var (prefix, s2) := LinePrefix(Seek(s, 0), i, p);
    var (_, s3) := Gets(s2, limit);
    var (rest, s4) := CopyLines(s3, limit);
    ReplaceContents(s4, prefix + replacement + rest)
  }

  /** The bytes before line i, read from offset 0: one fread of p bytes,
      skipped for line 0. */
  function LinePrefix(s: Stream, i: nat, p: nat): (r: (seq<Byte>, Stream))
    requires s.pos == 0 && p <= |s.data| && (i == 0 ==> p == 0) && (i != 0 ==> p >= 1)
    ensures r.0 == s.data[..p] && r.1 == s.(pos := p)
  {
    if i != 0 then Read(s, p) else ([], s)
  }

  /** What `$value . PHP_EOL` writes in the last-line and same-length
      branches: the value ("" for null) and a newline. */
  function Terminated(v: Option<seq<Byte>>): seq<Byte> {
    v.GetOr([]) + [NEWLINE]
  }

  /** What the staged rewrite writes: `(string) $value` followed by
      `$value === null ?: PHP_EOL`, which is true, printed "1", for null. */
  function StagedReplacement(v: Option<seq<Byte>>): seq<Byte> {
    v.GetOr([]) + (if v.None? then [TRUE_AS_STRING] else [NEWLINE])
  }

  /** Whether handleLineWrite on the known line starting at p takes the
      staged rewrite: the line is not the last one and the new value's
      length differs from the old line's length without its newline. */
  predicate StagedLine(data: seq<Byte>, p: nat, v: Option<seq<Byte>>, limit: nat)
    requires limit >= 2
  {
    var q := NextLine(data, p, limit);
    q < |data| && |v.GetOr([])| != q - p - 1
  }

  /** Whether handleLineWrite on the known line i, starting at p, takes the
      staged rewrite and fails at its first read: for a line other than 0
      the rewrite reads the p bytes before the line, and PHP 8's fread
      rejects a length of 0. A line other than 0 starts at 0 when the index
      learned it on an empty file. */
  predicate PrefixReadFails(data: seq<Byte>, i: nat, p: nat, v: Option<seq<Byte>>, limit: nat)
    requires limit >= 2
  {
    i != 0 && p == 0 && StagedLine(data, p, v, limit)
  }

  /** handleLineWrite on a line the index knows, starting at p = m[i]. The
      last line is rewritten and the file cut after it; a value as long as
      the old line overwrites it in place; any other line goes through the
      staged rewrite, the only branch that resets the index to {0: 0}. A
      staged rewrite whose prefix read has length 0 raises with the file
      untouched, the pointer rewound and the learned index kept. */
  function WriteKnownLine(e: Editor, m: seq<nat>, i: nat, v: Option<seq<Byte>>): (r: Step<()>)
    requires WellFormed(e) && e.mode == Line && i < |m| && m[0] == 0
    ensures WellFormed(r.next) && Keeps(e, r.next)
    ensures r.result.Err? <==> PrefixReadFails(e.stream.data, i, m[i], v, e.size)
    ensures r.result.Err? ==> r == Step(Err(ZeroLengthRead), e.(stream := e.stream.(pos := 0), lines := m))
    ensures r.result.Ok? && m[i] <= |e.stream.data| ==>
      var data := e.stream.data;
      var p := m[i];
      var q := NextLine(data, p, e.size);
      && r.next.stream.data ==
           (if q >= |data| then data[..p] + Terminated(v)
            else if !StagedLine(data, p, v, e.size) then data[..p] + Terminated(v) + data[q..]
            else data[..p] + StagedReplacement(v) + data[q..])
      && r.next.lines == if StagedLine(data, p, v, e.size) then [0] else m
    ensures m[i] > |e.stream.data| ==>
      && r.next.stream.data == e.stream.data + Zeros(m[i] - |e.stream.data|) + Terminated(v)
      && r.next.lines == m
  {
    var p := m[i];
    var (_, s1) := Gets(Seek(e.stream, p), e.size);
    if ProbeEnd(s1) then
      Step(Ok(()), e.(stream := WriteLast(Seek(s1, p), Terminated(v)), lines := m))
    else
      RewriteInnerLine(e, m, i, v)
  }

  /** WriteKnownLine on a line followed by more of the file: in place when
      the lengths agree, otherwise through the staged rewrite. */
  function RewriteInnerLine(e: Editor, m: seq<nat>, i: nat, v: Option<seq<Byte>>): (r: Step<()>)
    requires WellFormed(e) && e.mode == Line && i < |m| && m[0] == 0
    requires NextLine(e.stream.data, m[i], e.size) < |e.stream.data|
    ensures WellFormed(r.next) && Keeps(e, r.next)
    ensures r.result.Err? <==> PrefixReadFails(e.stream.data, i, m[i], v, e.size)
    ensures r.result.Err? ==> r == Step(Err(ZeroLengthRead), e.(stream := e.stream.(pos := 0), lines := m))
    ensures r.result.Ok? ==>
      var data := e.stream.data;
      var p := m[i];
      var q := NextLine(data, p, e.size);
      && r.next.stream.data ==
           (if !StagedLine(data, p, v, e.size) then data[..p] + Terminated(v) + data[q..]
            else data[..p] + StagedReplacement(v) + data[q..])
      && r.next.lines == if StagedLine(data, p, v, e.size) then [0] else m
  {
    var c := e.size;
    var p := m[i];
    var (record, s1) := Gets(Seek(e.stream, p), c);
    var s2 := Seek(s1, p);
    if |v.GetOr([])| == |record.GetOr([])| - 1 then
      Step(Ok(()), e.(stream := WriteInPlace(s2, Terminated(v), s1.pos), lines := m))
    else if i != 0 && p == 0 then
      Step(Err(ZeroLengthRead), e.(stream := Seek(s2, 0), lines := m))
    else
      Step(Ok(()), e.(stream := StagedLineRewrite(s2, i, p, StagedReplacement(v), c), lines := [0]))
  }

  /** The same-length branch: the new line, newline included, covers the
      old one exactly, from the pointer up to q. */
  function WriteInPlace(s: Stream, w: seq<Byte>, q: nat): (r: Stream)
    requires s.pos + |w| == q <= |s.data|
    ensures r.data == s.data[..s.pos] + w + s.data[q..]
  {
    Write(s, w)
  }

  /** handleLineWrite on a line beyond the index, which mapToLine left
      ending at the end of the file: from the last known line, one newline
      per missing index, then the value with no newline. The index is kept. */
  function PadToLine(e: Editor, m: seq<nat>, i: nat, v: Option<seq<Byte>>): (r: Editor)
    requires WellFormed(e) && e.mode == Line && |m| >= 1 && m[0] == 0 && i >= |m|
    requires m[|m| - 1] >= |e.stream.data|
    ensures WellFormed(r) && Keeps(e, r) && r.lines == m
    ensures r.stream.data ==
      e.stream.data + Zeros(m[|m| - 1] - |e.stream.data|) + Newlines(i - (|m| - 1)) + v.GetOr([])
  {
    var last := |m| - 1;
    var (_, s1) := Gets(Seek(e.stream, m[last]), e.size);
    var s2 := Write(s1, Newlines(i - last));
    e.(stream := Write(s2, v.GetOr([])), lines := m)
  }

  /** What handleLineWrite leaves behind once the index up to i is m. A
      known line starting at p inside the file becomes the value and its
      terminator between the bytes before p and the records after the old
      line; the terminator is a newline, or "1" for a null value in the
      staged rewrite, and only the staged rewrite resets the index. A known
      line whose entry lies past the end of the file (left by an earlier
      write that shortened the file) is written after a zero gap. An
      unknown line lies beyond a fully learned index, whose last entry is
      at or past the end of the file; it is reached with one newline per
      missing index after that entry, and the value is left unterminated. The only error
      is the staged rewrite's zero-length read, which changes no byte. */
  predicate LineWritten(data: seq<Byte>, m: seq<nat>, i: nat, v: Option<seq<Byte>>, limit: nat, r: Step<()>)
    requires limit >= 2 && |m| >= 1
  {
    && (r.result.Err? <==> i < |m| && PrefixReadFails(data, i, m[i], v, limit))
    && (r.result.Err? ==> r.result == Err(ZeroLengthRead) && r.next.stream.data == data && r.next.lines == m)
    && (i < |m| && m[i] <= |data| && r.result.Ok? ==>
          var staged := StagedLine(data, m[i], v, limit);
          && r.next.stream.data ==
               data[..m[i]] + (if staged then StagedReplacement(v) else Terminated(v)) + data[NextLine(data, m[i], limit)..]
          && r.next.lines == if staged then [0] else m)
    && (i < |m| && m[i] > |data| ==>
          && r.next.stream.data == data + Zeros(m[i] - |data|) + Terminated(v)
          && r.next.lines == m)
    && (i >= |m| ==>
          && m[|m| - 1] >= |data|
          && r.next.stream.data == data + Zeros(m[|m| - 1] - |data|) + Newlines(i - (|m| - 1)) + v.GetOr([])
          && r.next.lines == m)
  }

  /** handleLineWrite: under the lock, learn the index up to i, then
      rewrite the known line or pad up to the unknown one, with the
      outcome LineWritten describes. */
  function HandleLineWrite(e: Editor, i: nat, v: Option<seq<Byte>>, locked: bool): (r: Step<()>)
    requires WellFormed(e) && e.mode == Line
    ensures WellFormed(r.next)
    ensures Keeps(e, r.next)
    ensures e.closed ==> r == Step(Err(ClosedResource), e)
    ensures !e.closed && !locked ==> r == Step(Err(LockedOut), e)
    ensures !e.closed && locked ==> LineWritten(e.stream.data, Learned(e, i).0, i, v, e.size, r)
  {
    if e.closed then Step(Err(ClosedResource), e)
    else if !locked then Step(Err(LockedOut), e)
    else
      var (m, s) := LineIndex.MapToLine(e.stream, e.lines, i, e.size);
      if i < |m| then
        KnownLineWritten(e.(stream := s), m, i, v);
        WriteKnownLine(e.(stream := s), m, i, v)
      else
        var r := Step(Ok(()), PadToLine(e.(stream := s), m, i, v));
        assert LineWritten(s.data, m, i, v, e.size, r);
        r
  }

  /** The three branches of a known-line write, seen as one splice. */
  lemma KnownLineWritten(e: Editor, m: seq<nat>, i: nat, v: Option<seq<Byte>>)
    requires WellFormed(e) && e.mode == Line && i < |m| && m[0] == 0
    ensures LineWritten(e.stream.data, m, i, v, e.size, WriteKnownLine(e, m, i, v))
  {
    var data := e.stream.data;
    var p := m[i];
    if p <= |data| && NextLine(data, p, e.size) >= |data| {
      assert data[NextLine(data, p, e.size)..] == [];
    }
  }

  /** The bytes handleAppend adds: the raw value in chunk mode, the value
      with its surrounding newlines trimmed plus one newline in line mode. */
  function Appended(mode: Mode, v: seq<Byte>): seq<Byte> {
    if mode == Chunk then v else TrimEol(v) + [NEWLINE]
  }

  /** handleAppend: seek to the end and write what Appended says; line mode
      also resets the index to {0: 0}. No lock is taken. */
  function HandleAppend(e: Editor, v: seq<Byte>): (r: Step<()>)
    requires WellFormed(e)
    ensures WellFormed(r.next)
    ensures Keeps(e, r.next)
    ensures e.closed ==> r == Step(Err(ClosedResource), e)
    ensures !e.closed ==> r.result == Ok(())
    ensures !e.closed ==> r.next.stream.data == e.stream.data + Appended(e.mode, v)
    ensures !e.closed ==> r.next.lines == if e.mode == Chunk then e.lines else [0]
  {
    if e.closed then Step(Err(ClosedResource), e)
    else
      var s := WriteAtEnd(e.stream, Appended(e.mode, v));
      Step(Ok(()), e.(stream := s, lines := if e.mode == Chunk then e.lines else [0]))
  }

  /** offsetSet: the key must be an integer or null and the value a string
      or null, checked before any I/O. A null key appends; chunk mode casts
      a null value to ""; line mode passes null on. */
  function OffsetSet(e: Editor, k: Offset, v: Value, locked: bool): (r: Step<()>)
    requires WellFormed(e)
    ensures WellFormed(r.next)
    ensures Keeps(e, r.next)
    ensures r.result.Err? ==> r.next.stream.data == e.stream.data
    ensures r.result.Err? && r.result.error != ZeroLengthRead ==> r.next == e
    ensures r.result == Err(ZeroLengthRead) ==> k.Index? && !v.NonString? && e.mode == Line && !e.closed && locked
    ensures r.result == Err(InvalidArgument) <==> k.NonInt? || v.NonString?
    ensures r.result == Err(NullAppend) <==> k.NullOffset? && v.Null?
    ensures r.result == Err(LockedOut) <==> k.Index? && !v.NonString? && !e.closed && !locked
    ensures r.result == Err(ClosedResource) <==> !k.NonInt? && !v.NonString? && !(k.NullOffset? && v.Null?) && e.closed
    ensures k.NullOffset? && v.Str? ==> r == HandleAppend(e, v.bytes)
    ensures k.Index? && !v.NonString? && e.mode == Chunk ==>
      r == HandleChunkWrite(e, k.i, if v.Str? then v.bytes else [], locked)
    ensures k.Index? && !v.NonString? && e.mode == Line ==>
      r == HandleLineWrite(e, k.i, if v.Str? then Some(v.bytes) else None, locked)
  {
    if k.NonInt? || v.NonString? then Step(Err(InvalidArgument), e)
    else if k.NullOffset? then
      if v.Null? then Step(Err(NullAppend), e) else HandleAppend(e, v.bytes)
    else if e.mode == Chunk then
      HandleChunkWrite(e, k.i, if v.Str? then v.bytes else [], locked)
    else
      HandleLineWrite(e, k.i, if v.Str? then Some(v.bytes) else None, locked)
  }

  /** offsetUnset: an integer key, then exactly offsetSet(key, null). In
      chunk mode that removes the chunk's bytes and shifts the rest down. */
  function OffsetUnset(e: Editor, k: Offset, locked: bool): (r: Step<()>)
    requires WellFormed(e)
    ensures WellFormed(r.next)
    ensures !k.Index? ==> r == Step(Err(InvalidArgument), e)
    ensures k.Index? ==> r == OffsetSet(e, k, Null, locked)
    ensures k.Index? && e.mode == Chunk && !e.closed && locked ==>
      var data := e.stream.data;
      var c := e.size;
      r.next.stream.data ==
        if c * k.i < |data| then data[..c * k.i] + data[Min(c * (k.i + 1), |data|)..] else data
  {
    if !k.Index? then Step(Err(InvalidArgument), e)
    else OffsetSet(e, k, Null, locked)
  }

  // ---------------------------------------------------------------------
  // The cursor

  /** ensureIteratorPosition: move the pointer to where the cursor's unit
      starts, whatever random access did to it meanwhile. In line mode
      that needs the cursor's index entry. */
  function EnsureIteratorPosition(e: Editor): (r: Result<Stream>)
    requires WellFormed(e)
    ensures e.closed ==> r == Err(ClosedResource)
    ensures !e.closed && e.mode == Chunk ==> r == Ok(e.stream.(pos := e.size * e.cursor))
    ensures !e.closed && e.mode == Line ==>
      r == if e.cursor < |e.lines| then Ok(e.stream.(pos := e.lines[e.cursor])) else Err(UnmappedLine)
  {
    if e.closed then Err(ClosedResource)
    else if e.mode == Chunk then
      var expected := e.size * e.cursor;
      Ok(if e.stream.pos != expected then Seek(e.stream, expected) else e.stream)
    else if e.cursor >= |e.lines| then Err(UnmappedLine)
    else
      var expected := e.lines[e.cursor];
      Ok(if e.stream.pos != expected then Seek(e.stream, expected) else e.stream)
  }

  /** `$this->lineMap[j] = q` for a key j at most one past the last: the
      entry is overwritten or appended, every other entry stays. */
  function NoteLineStart(lines: seq<nat>, j: nat, q: nat): (r: seq<nat>)
    requires j <= |lines|
    ensures |r| == Max(|lines|, j + 1)
    ensures r[j] == q
    ensures forall k :: 0 <= k < |r| && k != j ==> r[k] == lines[k]
  {
    if j < |lines| then lines[j := q] else lines + [q]
  }

  /** current(): the unit under the cursor. Line mode also records where
      the next line starts, the offset the read has just found. */
  function Current(e: Editor): (r: Step<seq<Byte>>)
    requires WellFormed(e)
    ensures WellFormed(r.next)
    ensures r.next.stream.data == e.stream.data
    ensures Keeps(e, r.next)
    ensures r.result.Err? ==> r.next == e
    ensures e.closed ==> r.result == Err(ClosedResource)
    ensures !e.closed && e.mode == Chunk ==> r.result == Ok(ChunkAt(e.stream.data, e.size, e.cursor))
    ensures !e.closed && e.mode == Line && e.cursor >= |e.lines| ==> r.result == Err(UnmappedLine)
    ensures !e.closed && e.mode == Line && e.cursor < |e.lines| ==>
      var p := e.lines[e.cursor];
      && r.result == Ok(RecordAt(e.stream.data, p, e.size))
      && r.next.lines == NoteLineStart(e.lines, e.cursor + 1, NextLine(e.stream.data, p, e.size))
  {
    match EnsureIteratorPosition(e)
    case Err(err) => Step(Err(err), e)
    case Ok(s) =>
      if e.mode == Chunk then
        var (b, s1) := Read(s, e.size);
        Step(Ok(b), e.(stream := s1))
      else
        var (line, s1) := Gets(s, e.size);
        Step(Ok(TrimEol(line.GetOr([]))), e.(stream := s1, lines := NoteLineStart(e.lines, e.cursor + 1, s1.pos)))
  }

  /** key(): the cursor. No I/O, so it works on a closed handle too. */
  function Key(e: Editor): (k: nat)
    ensures k == e.cursor
  {
    e.cursor
  }

  /** next(): advance the cursor only. No I/O: the file, the pointer and
      the line index stay as they are. */
  function Next(e: Editor): (r: Editor)
    ensures r.cursor == e.cursor + 1
    ensures r.(cursor := e.cursor) == e
  {
    e.(cursor := e.cursor + 1)
  }

  /** rewind(): pointer and cursor back to 0. */
  function Rewind(e: Editor): (r: Step<()>)
    requires WellFormed(e)
    ensures WellFormed(r.next)
    ensures e.closed ==> r == Step(Err(ClosedResource), e)
    ensures !e.closed ==> r == Step(Ok(()), e.(stream := e.stream.(pos := 0), cursor := 0))
  {
    if e.closed then Step(Err(ClosedResource), e)
    else Step(Ok(()), e.(stream := Seek(e.stream, 0), cursor := 0))
  }

  /** valid(): reposition, then probe for the end. Traversal ends exactly
      when the cursor's unit starts at or past the end of the file. */
  function Valid(e: Editor): (r: Step<bool>)
    requires WellFormed(e)
    ensures WellFormed(r.next)
    ensures r.next.stream.data == e.stream.data
    ensures Keeps(e, r.next) && r.next.lines == e.lines
    ensures r.result.Err? ==> r.next == e
    ensures e.closed ==> r.result == Err(ClosedResource)
    ensures !e.closed && e.mode == Chunk ==> r.result == Ok(e.size * e.cursor < |e.stream.data|)
    ensures !e.closed && e.mode == Line ==>
      r.result == if e.cursor < |e.lines| then Ok(e.lines[e.cursor] < |e.stream.data|) else Err(UnmappedLine)
  {
    match EnsureIteratorPosition(e)
    case Err(err) => Step(Err(err), e)
    case Ok(s) => Step(Ok(!ProbeEnd(s)), e.(stream := s))
  }
}
