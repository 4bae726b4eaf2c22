/** The line index of the line-mode editor: entry j is the byte offset at
    which line j starts. It is learned lazily, one fgets at a time, and the
    editor only ever extends it here; resets happen in the editor. */
module LineIndex {
  import opened Stream

  /** The loop of mapToLine over the file `data`, from the offset of the
      last known line: up to k times, read one record with fgets, note the
      pointer as the start of the next line, and stop early as soon as the
      end-of-file probe fires, that is, once the pointer has reached the
      end (ProbeEnd). The pointer after the loop is the last entry. */
  function Extend(data: seq<Byte>, m: seq<nat>, k: nat, limit: nat): (r: seq<nat>)
    requires limit >= 2 && |m| >= 1
    ensures |m| <= |r| <= |m| + k && r[..|m|] == m
    ensures k > 0 ==> |r| > |m|
    ensures forall j :: |m| - 1 <= j < |r| - 1 ==> r[j + 1] == NextLine(data, r[j], limit)
    ensures forall j :: |m| <= j < |r| - 1 ==> r[j] < |data|
    ensures |r| == |m| + k || r[|r| - 1] >= |data|
    decreases k
  {
    if k == 0 then m
    else
      var q := NextLine(data, m[|m| - 1], limit);
      var m1 := m + [q];
      if q >= |data| then m1
      else
        var r := Extend(data, m1, k - 1, limit);
        ExtendedPrefix(m, q, r);
        r
  }

  /** A sequence that starts with m + [q] starts with m, then q. */
  lemma ExtendedPrefix(m: seq<nat>, q: nat, r: seq<nat>)
    requires |m| >= 1 && |r| > |m| && r[..|m| + 1] == m + [q]
    ensures r[..|m|] == m && r[|m| - 1] == m[|m| - 1] && r[|m|] == q
  {
    assert r[..|m|] == (r[..|m| + 1])[..|m|];
  }

  /** mapToLine(target): nothing when the target line is already known;
      otherwise continue from the last known line until the target line's
      offset is learned or the end of the file is reached. The offset the
      last step records may be the end of the file itself. */
  function MapToLine(s: Stream, m: seq<nat>, target: nat, limit: nat): (r: (seq<nat>, Stream))
    requires limit >= 2 && |m| >= 1
    ensures r.1.data == s.data
    ensures target < |m| ==> r == (m, s)
    ensures target >= |m| ==> |m| < |r.0| <= target + 1 && r.1.pos == r.0[|r.0| - 1]
    ensures |r.0| >= |m| && r.0[..|m|] == m
    ensures forall j :: |m| - 1 <= j < |r.0| - 1 ==> r.0[j + 1] == NextLine(s.data, r.0[j], limit)
    ensures forall j :: |m| - 1 <= j < |r.0| - 1 ==> r.0[j] <= r.0[j + 1]
    ensures forall j :: |m| <= j < |r.0| - 1 ==> r.0[j] < |s.data|
    ensures target < |r.0| || r.0[|r.0| - 1] >= |s.data|
  {
    if target < |m| then (m, s)
    else
      var r := Extend(s.data, m, target - (|m| - 1), limit);
      (r, Seek(s, r[|r| - 1]))
  }

  /** The records fgets finds from p to the end of the file, each with its
      newline trimmed: what a line-mode traversal yields. */
  function Records(data: seq<Byte>, p: nat, limit: nat): seq<seq<Byte>>
    requires limit >= 2
    decreases |data| - p
  {
    if p >= |data| then []
    else
      var q := NextLine(data, p, limit);
      [TrimEol(data[p..q])] + Records(data, q, limit)
  }

  /** How many records fgets finds from p to the end of the file. */
  function RecordCount(data: seq<Byte>, p: nat, limit: nat): nat
    requires limit >= 2
    decreases |data| - p
  {
    if p >= |data| then 0 else 1 + RecordCount(data, NextLine(data, p, limit), limit)
  }

  /** RecordCount counts what a traversal yields. */
  lemma {:induction false} RecordCountLength(data: seq<Byte>, p: nat, limit: nat)
    requires limit >= 2
    ensures RecordCount(data, p, limit) == |Records(data, p, limit)|
    decreases |data| - p
  {
    if p < |data| {
      RecordCountLength(data, NextLine(data, p, limit), limit);
    }
  }

  /** How many entries mapToLine's loop adds: k if the file has enough
      records after the starting offset, otherwise one per remaining
      record, and always at least one (the end-of-file offset). */
  lemma {:induction false} ExtendLength(data: seq<Byte>, m: seq<nat>, k: nat, limit: nat)
    requires limit >= 2 && |m| >= 1 && k >= 1
    ensures |Extend(data, m, k, limit)| == |m| + Min(k, Max(1, RecordCount(data, m[|m| - 1], limit)))
    decreases k, 1
  {
    if NextLine(data, m[|m| - 1], limit) >= |data| || k == 1 {
      ExtendLengthOne(data, m, k, limit);
    } else {
      ExtendLengthStep(data, m, k, limit);
    }
  }

  /** The loop adds one entry when it stops after the first fgets. */
  lemma ExtendLengthOne(data: seq<Byte>, m: seq<nat>, k: nat, limit: nat)
    requires limit >= 2 && |m| >= 1 && k >= 1
    requires NextLine(data, m[|m| - 1], limit) >= |data| || k == 1
    ensures |Extend(data, m, k, limit)| == |m| + Min(k, Max(1, RecordCount(data, m[|m| - 1], limit)))
  {
    var p := m[|m| - 1];
    if NextLine(data, p, limit) >= |data| {
      ExtendStops(data, m, k, limit);
    } else {
      ExtendContinues(data, m, k, limit);
    }
    CountStops(|Extend(data, m, k, limit)|, |m|, k, RecordCount(data, p, limit));
  }

  /** Otherwise it adds one entry and then what the rest of the loop adds. */
  lemma {:induction false} ExtendLengthStep(data: seq<Byte>, m: seq<nat>, k: nat, limit: nat)
    requires limit >= 2 && |m| >= 1 && k > 1
    requires NextLine(data, m[|m| - 1], limit) < |data|
    ensures |Extend(data, m, k, limit)| == |m| + Min(k, Max(1, RecordCount(data, m[|m| - 1], limit)))
    decreases k, 0
  {
    var p := m[|m| - 1];
    var q := NextLine(data, p, limit);
    ExtendContinues(data, m, k, limit);
    ExtendLength(data, m + [q], k - 1, limit);
    CountContinues(|Extend(data, m, k, limit)|, |m|, k, RecordCount(data, p, limit), RecordCount(data, q, limit));
  }

  lemma CountStops(len: int, base: int, k: nat, n: nat)
    requires k >= 1 && len == base + 1 && (n <= 1 || k == 1)
    ensures len == base + Min(k, Max(1, n))
  {
  }

  lemma CountContinues(len: int, base: int, k: nat, n: nat, n1: nat)
    requires k > 1 && n == 1 + n1 && n1 >= 1
    requires len == base + 1 + Min(k - 1, Max(1, n1))
    ensures len == base + Min(k, Max(1, n))
  {
  }

  /** The loop stops after one fgets exactly when that fgets reaches the
      end, and then at most one record was left. */
  lemma ExtendStops(data: seq<Byte>, m: seq<nat>, k: nat, limit: nat)
    requires limit >= 2 && |m| >= 1 && k >= 1
    requires NextLine(data, m[|m| - 1], limit) >= |data|
    ensures |Extend(data, m, k, limit)| == |m| + 1
    ensures RecordCount(data, m[|m| - 1], limit) <= 1
  {
  }

  /** Otherwise the loop goes on from the offset just learned, with one
      record behind it and at least one ahead. */
  lemma ExtendContinues(data: seq<Byte>, m: seq<nat>, k: nat, limit: nat)
    requires limit >= 2 && |m| >= 1 && k >= 1
    requires NextLine(data, m[|m| - 1], limit) < |data|
    ensures var q := NextLine(data, m[|m| - 1], limit);
      && Extend(data, m, k, limit) == Extend(data, m + [q], k - 1, limit)
      && RecordCount(data, m[|m| - 1], limit) == 1 + RecordCount(data, q, limit)
      && RecordCount(data, q, limit) >= 1
  {
  }

  /** The n bytes from lo are all newlines. */
  predicate NewlineRun(data: seq<Byte>, lo: nat, n: nat) {
    lo + n <= |data| && forall j :: lo <= j < lo + n ==> data[j] == NEWLINE
  }

  /** Over a run of k newlines after the last known offset, the loop
      learns one line per newline: k more entries, the last one just past
      the run. */
  lemma ExtendOverNewlines(data: seq<Byte>, m: seq<nat>, k: nat, limit: nat)
    requires limit >= 2 && |m| >= 1 && NewlineRun(data, m[|m| - 1], k)
    ensures var r := Extend(data, m, k, limit);
            |r| == |m| + k && r[|r| - 1] == m[|m| - 1] + k
  {
    var r := Extend(data, m, k, limit);
    var p := m[|m| - 1];
    assert r[|m| - 1] == p by {
      assert r[..|m|][|m| - 1] == m[|m| - 1];
    }
    RunPositions(data, r, |m| - 1, k, limit, |r| - |m|);
    RunCovered(|r|, |m|, k, r[|r| - 1], p, |data|);
  }

  /** A loop that could stop early only at the end of the file, and is
      still short of the end, ran all k steps. */
  lemma RunCovered(len: nat, base: nat, k: nat, last: nat, p: nat, size: nat)
    requires base <= len <= base + k && p + k <= size
    requires len == base + k || last >= size
    requires last == p + (len - base)
    ensures len == base + k
  {
  }

  /** mapToLine(target) over newlines from the last known offset up to
      the target line learns the target just past them. */
  lemma MapOverNewlines(s: Stream, m: seq<nat>, target: nat, limit: nat)
    requires limit >= 2 && |m| >= 1 && target >= |m|
    requires NewlineRun(s.data, m[|m| - 1], target - (|m| - 1))
    ensures var r := MapToLine(s, m, target, limit).0;
            |r| == target + 1 && r[target] == m[|m| - 1] + (target - (|m| - 1))
  {
    ExtendOverNewlines(s.data, m, target - (|m| - 1), limit);
  }

  /** Where the loop steps when every byte it meets is a newline: t steps
      after an entry at the start of the run, t bytes further on. */
  lemma {:induction false} RunPositions(data: seq<Byte>, r: seq<nat>, base: nat, k: nat, limit: nat, t: nat)
    requires limit >= 2 && base + t < |r| && t <= k && NewlineRun(data, r[base], k)
    requires forall j :: base <= j < |r| - 1 ==> r[j + 1] == NextLine(data, r[j], limit)
    ensures r[base + t] == r[base] + t
    decreases t
  {
    if t > 0 {
      RunPositions(data, r, base, k, limit, t - 1);
      var x := r[base] + t - 1;
      assert data[x] == NEWLINE;
      NextLineIs(data, x, limit, x + 1);
    }
  }

  /** Bytes written after a final newline do not move the place where
      fgets stops inside the old file. */
  lemma NextLineInPrefix(data: seq<Byte>, t: seq<Byte>, p: nat, limit: nat)
    requires limit >= 2 && p < |data| && data[|data| - 1] == NEWLINE
    ensures NextLine(data + t, p, limit) == NextLine(data, p, limit)
  {
    var q := NextLine(data, p, limit);
    forall k | p <= k < q - 1
      ensures (data + t)[k] != NEWLINE
    {
      assert (data + t)[k] == data[k];
    }
    assert (data + t)[q - 1] == data[q - 1];
    NextLineIs(data + t, p, limit, q);
  }

  /** mapToLine's loop over a file that had t written after its final
      newline, started at an offset p of the old file: it takes one step
      per record the old file has from p, and its last entry is the old
      end of the file, where t begins. */
  lemma {:induction false} ExtendAcrossPrefix(data: seq<Byte>, t: seq<Byte>, m: seq<nat>, limit: nat)
    requires limit >= 2 && |m| >= 1 && |t| >= 1
    requires m[|m| - 1] <= |data| && (|data| == 0 || data[|data| - 1] == NEWLINE)
    ensures var r := Extend(data + t, m, RecordCount(data, m[|m| - 1], limit), limit);
            |r| == |m| + RecordCount(data, m[|m| - 1], limit) && r[|r| - 1] == |data|
    decreases |data| - m[|m| - 1]
  {
    var p := m[|m| - 1];
    if p < |data| {
      var n := RecordCount(data, p, limit);
      var q := NextLine(data, p, limit);
      assert n == 1 + RecordCount(data, q, limit);
      NextLineInPrefix(data, t, p, limit);
      ExtendContinues(data + t, m, n, limit);
      ExtendAcrossPrefix(data, t, m + [q], limit);
    }
  }

  /** mapToLine(n) from a fresh index over a file that had t written
      after its final newline, n the number of records of the old file:
      line n is learned at the old end of the file. */
  lemma MapAcrossPrefix(s: Stream, data: seq<Byte>, t: seq<Byte>, limit: nat)
    requires limit >= 2 && |t| >= 1 && s.data == data + t
    requires |data| == 0 || data[|data| - 1] == NEWLINE
    ensures var n := RecordCount(data, 0, limit);
            var r := MapToLine(s, [0], n, limit).0;
            n < |r| && r[n] == |data|
  {
    if RecordCount(data, 0, limit) > 0 {
      ExtendAcrossPrefix(data, t, [0], limit);
    }
  }
}
