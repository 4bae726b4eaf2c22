/** The open file handle the editor works on, as a value: the file's bytes
    and the file pointer. Each PHP stream call the editor makes (fseek,
    fread, fgets, fwrite, ftruncate) is a pure function here. */
module Stream {

  type Byte = bv8

  /** PHP_EOL on the platforms the library targets. */
  const NEWLINE: Byte := 10

  datatype Option<+T> = None | Some(value: T) {
    function GetOr(default: T): T {
      match this
      case Some(v) => v
      case None => default
    }
  }

  /** `data` is the whole file, `pos` the file pointer (it may lie past
      the end: fseek beyond the end of a file is allowed). */
  datatype Stream = Stream(data: seq<Byte>, pos: nat)

  function Min(a: nat, b: nat): nat { if a <= b then a else b }

  function Max(a: nat, b: nat): nat { if a <= b then b else a }

  function Zeros(n: nat): (z: seq<Byte>)
    ensures |z| == n
    ensures forall i :: 0 <= i < n ==> z[i] == 0
  {
    seq(n, _ => 0)
  }

  function Newlines(n: nat): (z: seq<Byte>)
    ensures |z| == n
    ensures forall i :: 0 <= i < n ==> z[i] == NEWLINE
  {
    seq(n, _ => NEWLINE)
  }

  /** fseek(f, off), and rewind(f) for off = 0: only the pointer moves. */
  function Seek(s: Stream, off: nat): (r: Stream)
    ensures r.data == s.data && r.pos == off
  {
    s.(pos := off)
  }

  /** fseek(f, 0, SEEK_END): the pointer lands just past the last byte. */
  function SeekEnd(s: Stream): (r: Stream)
    ensures r.data == s.data && r.pos == |r.data|
  {
    s.(pos := |s.data|)
  }

  /** fread(f, n) on a plain file: the bytes from the pointer on, at most n
      of them, fewer only when the end of the file comes first. PHP 8
      rejects a length of 0 with a ValueError, so n is at least 1; the one
      caller that can ask for 0 bytes checks first. */
  function Read(s: Stream, n: nat): (r: (seq<Byte>, Stream))
    requires n >= 1
    ensures r.1.data == s.data
    ensures r.1.pos == s.pos + |r.0|
    ensures s.pos < |s.data| ==> r.0 == s.data[s.pos..Min(s.pos + n, |s.data|)]
    ensures s.pos >= |s.data| ==> r.0 == []
  {
    if s.pos >= |s.data| then ([], s)
    else
      var e := Min(s.pos + n, |s.data|);
      (s.data[s.pos..e], s.(pos := e))
  }

  /** The editor's private end-of-file probe: remember the pointer, try to
      read one byte, report whether that read came back empty, and seek back.
      The pointer is restored, so only the answer is returned. */
  function ProbeEnd(s: Stream): (atEnd: bool)
    ensures atEnd <==> s.pos >= |s.data|
  {
    var (b, _) := Read(s, 1);
    |b| == 0
  }

  /** fwrite(f, v) on a file opened without append: v replaces the bytes at
      the pointer, the file grows if v runs past its end, and a pointer
      beyond the end leaves a gap of zero bytes. An empty v writes nothing
      at all, so it leaves no gap either. */
  function Write(s: Stream, v: seq<Byte>): (r: Stream)
    ensures r.pos == s.pos + |v|
    ensures |v| == 0 ==> r == s
    ensures |v| > 0 ==> |r.data| == Max(|s.data|, s.pos + |v|)
    ensures s.pos <= |s.data| ==> r.data == s.data[..s.pos] + v + s.data[Min(s.pos + |v|, |s.data|)..]
    ensures s.pos > |s.data| && |v| > 0 ==> r.data == s.data + Zeros(s.pos - |s.data|) + v
  {
    if |v| == 0 then s
    else
      var before := if s.pos <= |s.data| then s.data[..s.pos] else s.data + Zeros(s.pos - |s.data|);
      var after := if s.pos + |v| < |s.data| then s.data[s.pos + |v|..] else [];
      Stream(before + v + after, s.pos + |v|)
  }

  /** ftruncate(f, n): cut the file to n bytes, or extend it with zeros.
      The pointer does not move. */
  function Truncate(s: Stream, n: nat): (r: Stream)
    ensures r.pos == s.pos
    ensures |r.data| == n
    ensures n <= |s.data| ==> r.data == s.data[..n]
    ensures n > |s.data| ==> r.data == s.data + Zeros(n - |s.data|)
  {
    if n <= |s.data| then s.(data := s.data[..n]) else s.(data := s.data + Zeros(n - |s.data|))
  }

  /** fseek(f, 0, SEEK_END) then fwrite(f, v): v lands after the last
      byte. */
  function WriteAtEnd(s: Stream, v: seq<Byte>): (r: Stream)
    ensures r.data == s.data + v && r.pos == |r.data|
  {
    var w := Write(SeekEnd(s), v);
    assert w.data == s.data + v by {
      assert s.data[Min(|s.data| + |v|, |s.data|)..] == [];
    }
    w
  }

  /** fwrite(f, v) then ftruncate(f, ftell(f)): v becomes the end of the
      file. */
  function WriteLast(s: Stream, v: seq<Byte>): (r: Stream)
    ensures r.pos == s.pos + |v|
    ensures s.pos <= |s.data| ==> r.data == s.data[..s.pos] + v
    ensures s.pos > |s.data| ==> r.data == s.data + Zeros(s.pos - |s.data|) + v
  {
    if |v| == 0 then
      assert v == [];
      Truncate(s, s.pos)
    else
      var w := Write(s, v);
      assert w.data[..w.pos] == if s.pos <= |s.data| then s.data[..s.pos] + v else s.data + Zeros(s.pos - |s.data|) + v;
      Truncate(w, w.pos)
  }

  /** The scan behind fgets: from j, stop just past the first newline, or
      at `stop`, whichever comes first. */
  function ScanLine(data: seq<Byte>, j: nat, stop: nat): (q: nat)
    requires j < stop <= |data|
    ensures j < q <= stop
    ensures data[q - 1] == NEWLINE || q == stop
    ensures forall k :: j <= k < q - 1 ==> data[k] != NEWLINE
    decreases stop - j
  {
    if data[j] == NEWLINE || j + 1 == stop then j + 1 else ScanLine(data, j + 1, stop)
  }

  /** Where the pointer ends up after fgets(f, limit) from p: just past the
      first newline, or after limit - 1 bytes, or at the end of the file,
      whichever comes first; p itself when p is already at the end. */
  function NextLine(data: seq<Byte>, p: nat, limit: nat): (q: nat)
    requires limit >= 2
    ensures p >= |data| ==> q == p
    ensures p < |data| ==> p < q <= |data| && q - p <= limit - 1
    ensures p < |data| ==> data[q - 1] == NEWLINE || q == |data| || q - p == limit - 1
    ensures p < |data| ==> forall k :: p <= k < q - 1 ==> data[k] != NEWLINE
  {
    if p >= |data| then p else ScanLine(data, p, Min(p + limit - 1, |data|))
  }

  /** NextLine is determined by its contract: any q that stops where fgets
      stops is the place it stops. */
  lemma NextLineIs(data: seq<Byte>, p: nat, limit: nat, q: nat)
    requires limit >= 2 && p < q <= |data| && q - p <= limit - 1
    requires data[q - 1] == NEWLINE || q == |data| || q - p == limit - 1
    requires forall k :: p <= k < q - 1 ==> data[k] != NEWLINE
    ensures NextLine(data, p, limit) == q
  {
  }

  /** fgets(f, limit): the next record including its newline, None (PHP's
      false) when nothing is left to read. */
  function Gets(s: Stream, limit: nat): (r: (Option<seq<Byte>>, Stream))
    requires limit >= 2
    ensures r.1 == s.(pos := NextLine(s.data, s.pos, limit))
    ensures r.0.None? <==> s.pos >= |s.data|
    ensures r.0.Some? ==> r.0.value == s.data[s.pos..r.1.pos]
  {
    if s.pos >= |s.data| then (None, s)
    else
      var q := NextLine(s.data, s.pos, limit);
      (Some(s.data[s.pos..q]), s.(pos := q))
  }

  /** The first index at or after k that holds no newline, or |b|: where
      trim's scan from the left stops. */
  function SkipNewlines(b: seq<Byte>, k: nat): (j: nat)
    requires k <= |b|
    ensures k <= j <= |b|
    ensures forall x :: k <= x < j ==> b[x] == NEWLINE
    ensures j < |b| ==> b[j] != NEWLINE
    decreases |b| - k
  {
    if k < |b| && b[k] == NEWLINE then SkipNewlines(b, k + 1) else k
  }

  /** The end of b[lo..k] once its trailing newlines are dropped: where
      trim's scan from the right stops. */
  function DropNewlines(b: seq<Byte>, lo: nat, k: nat): (j: nat)
    requires lo <= k <= |b|
    ensures lo <= j <= k
    ensures forall x :: j <= x < k ==> b[x] == NEWLINE
    ensures j > lo ==> b[j - 1] != NEWLINE
    decreases k
  {
    if k > lo && b[k - 1] == NEWLINE then DropNewlines(b, lo, k - 1) else k
  }

  /** trim(b, PHP_EOL): a record as it is handed to callers, with the
      newlines at both ends removed. The result is a slice of b with only
      newlines on either side of it, and it neither starts nor ends with
      one, which pins it down. */
  function TrimEol(b: seq<Byte>): (r: seq<Byte>)
    ensures |r| <= |b|
    ensures exists lo :: TrimmedAt(b, lo, r)
    ensures |r| > 0 ==> r[0] != NEWLINE && r[|r| - 1] != NEWLINE
    ensures NEWLINE !in b ==> r == b
  {
    var lo := SkipNewlines(b, 0);
    var r := b[lo..DropNewlines(b, lo, |b|)];
    assert TrimmedAt(b, lo, r);
    r
  }

  /** r sits in b at lo, with nothing but newlines before and after it. */
  predicate TrimmedAt(b: seq<Byte>, lo: nat, r: seq<Byte>) {
    && lo + |r| <= |b| && b[lo..lo + |r|] == r
    && (forall x :: 0 <= x < lo ==> b[x] == NEWLINE)
    && (forall x :: lo + |r| <= x < |b| ==> b[x] == NEWLINE)
  }

  /** A record written as `w` plus its newline reads back as `w`. */
  lemma {:induction false} TrimEolRecord(w: seq<Byte>)
    requires NEWLINE !in w
    ensures TrimEol(w + [NEWLINE]) == w
  {
    var b := w + [NEWLINE];
    var lo := SkipNewlines(b, 0);
    if |w| == 0 {
      assert SkipNewlines(b, 1) == 1;
      assert lo == 1;
    } else {
      assert b[0] == w[0];
      assert lo == 0;
      assert b[|w| - 1] == w[|w| - 1];
      assert DropNewlines(b, 0, |b|) == DropNewlines(b, 0, |w|) == |w|;
      assert b[..|w|] == w;
    }
  }

  /** Both the first write and the truncate of a staged rewrite: write t at
      offset 0, cut the file to |t|. The file is then exactly t. */
  function ReplaceContents(s: Stream, t: seq<Byte>): (r: Stream)
    ensures r.data == t && r.pos == |t|
  {
    var w := Write(Seek(s, 0), t);
    assert w.data[..|t|] == t by {
      if |t| <= |s.data| {
        assert w.data == t + s.data[|t|..];
      }
    }
    Truncate(w, |t|)
  }
}
