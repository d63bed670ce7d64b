/** The window planner of the ranged download (`download`,
    src/downloader.rs:73-104): from a content length it derives
    `end = length - 1` and, while `start < end`, requests the inclusive
    window `start..=next-1` with `next = start + min(CHUNK_SIZE, end-start+1)`.

    The loop guard `start < end` stops one byte early when `end` is a
    multiple of CHUNK_SIZE (in particular when `length == 1`): the byte at
    `length - 1` is then never requested. `CoveringWindows` is the planner
    with the guard the code evidently intends, and covers `[0, length)`. */
module RangePlan {
  import opened Base
  import opened Http

  /** Largest number of bytes one ranged request asks for (src/downloader.rs:13). */
  const CHUNK_SIZE: nat := 10240

  /** The value of `start` after one turn of the loop. */
  function NextStart(start: nat, end: nat): (next: nat)
    requires start < end
    ensures start < next <= end + 1
    ensures next - start <= CHUNK_SIZE
    ensures next <= end ==> next - start == CHUNK_SIZE
  {
    start + Min(CHUNK_SIZE, end - start + 1)
  }

  /** The windows the loop requests, in request order, once `start` has
      reached the given value. */
  function WindowsFrom(start: nat, end: nat): (ws: seq<Window>)
    ensures |ws| > 0 <==> start < end
    decreases end - start
  {
    if start < end then
      var next := NextStart(start, end);
      [Window(start, next - 1)] + WindowsFrom(next, end)
    else
      []
  }

  /** One turn of the loop emits the window `start..=NextStart-1`. */
  lemma WindowsFromStep(start: nat, end: nat)
    requires start < end
    ensures WindowsFrom(start, end) ==
              [Window(start, NextStart(start, end) - 1)] + WindowsFrom(NextStart(start, end), end)
  {
  }

  /** Windows are non-empty, at most CHUNK_SIZE long, inside `[start, end]`,
      and each starts right after the previous one ends. */
  lemma {:induction false} WindowsFromShape(start: nat, end: nat)
    ensures var ws := WindowsFrom(start, end);
            && (|ws| > 0 ==> ws[0].first == start)
            && (forall i :: 0 <= i < |ws| ==> start <= ws[i].first <= ws[i].last <= end)
            && (forall i :: 0 <= i < |ws| ==> 1 <= Size(ws[i]) <= CHUNK_SIZE)
            && (forall i :: 0 <= i < |ws| - 1 ==> ws[i + 1].first == ws[i].last + 1)
    decreases end - start
  {
    if start < end {
      var next := NextStart(start, end);
      var ws := WindowsFrom(start, end);
      var rest := WindowsFrom(next, end);
      WindowsFromShape(next, end);
      assert ws == [Window(start, next - 1)] + rest;
      forall i | 0 <= i < |ws| - 1 ensures ws[i + 1].first == ws[i].last + 1 {
        if i > 0 { assert ws[i] == rest[i - 1] && ws[i + 1] == rest[i]; }
      }
    }
  }

  /** All windows `download` requests for a resource of `length` bytes. */
  function Windows(length: nat): seq<Window>
    requires length >= 1
  {
    WindowsFrom(0, length - 1)
  }

  /** The planned windows start at byte 0, stay inside the resource, ask
      for 1 to CHUNK_SIZE bytes each, and follow each other without gap or
      overlap. */
  lemma WindowsShape(length: nat)
    requires length >= 1
    ensures var ws := Windows(length);
            && (|ws| > 0 ==> ws[0].first == 0)
            && (forall i :: 0 <= i < |ws| ==> ws[i].first <= ws[i].last < length)
            && (forall i :: 0 <= i < |ws| ==> 1 <= Size(ws[i]) <= CHUNK_SIZE)
            && (forall i :: 0 <= i < |ws| - 1 ==> ws[i + 1].first == ws[i].last + 1)
  {
    WindowsFromShape(0, length - 1);
  }

  /** The value of `start` when the loop exits. */
  function FinalStart(start: nat, end: nat): (f: nat)
    ensures start <= f
    ensures start < end ==> f == end || f == end + 1
    decreases end - start
  {
    if start < end then FinalStart(NextStart(start, end), end) else start
  }

  /** Byte `b` lies in one of the windows. */
  predicate Requested(ws: seq<Window>, b: nat)
  {
    exists i :: 0 <= i < |ws| && ws[i].first <= b <= ws[i].last
  }

  /** Total number of bytes the windows ask for. */
  function TotalSize(ws: seq<Window>): int
  {
    if ws == [] then 0 else Size(ws[0]) + TotalSize(ws[1..])
  }

  /** The windows from `start` are exactly the bytes `[start, FinalStart)`,
      with no gap and no overlap. */
  lemma {:induction false} WindowsFromCover(start: nat, end: nat, b: nat)
    ensures Requested(WindowsFrom(start, end), b) <==> start <= b < FinalStart(start, end)
    decreases end - start
  {
    var ws := WindowsFrom(start, end);
    if start < end {
      var next := NextStart(start, end);
      var rest := WindowsFrom(next, end);
      assert ws == [Window(start, next - 1)] + rest;
      assert FinalStart(start, end) == FinalStart(next, end);
      WindowsFromCover(next, end, b);
      if Requested(rest, b) {
        var i :| 0 <= i < |rest| && rest[i].first <= b <= rest[i].last;
        assert ws[i + 1] == rest[i];
      }
      if Requested(ws, b) && !(start <= b < next) {
        var i :| 0 <= i < |ws| && ws[i].first <= b <= ws[i].last;
        assert i > 0 && ws[i] == rest[i - 1];
      }
      if start <= b < next {
        assert ws[0].first <= b <= ws[0].last;
      }
    }
  }

  lemma {:induction false} TotalSizeFrom(start: nat, end: nat)
    ensures TotalSize(WindowsFrom(start, end)) == FinalStart(start, end) - start
    decreases end - start
  {
    if start < end {
      var next := NextStart(start, end);
      var ws := WindowsFrom(start, end);
      assert ws[1..] == WindowsFrom(next, end);
      TotalSizeFrom(next, end);
    }
  }

  /** `e % CHUNK_SIZE` for a position inside the `q`-th chunk. */
  lemma ModInChunk(e: nat, q: nat)
    requires q * CHUNK_SIZE <= e < q * CHUNK_SIZE + CHUNK_SIZE
    ensures e % CHUNK_SIZE == e - q * CHUNK_SIZE
  {
  }

  /** Started at a chunk boundary, the loop exits at `end` exactly when `end`
      is itself a chunk boundary, and at `end + 1` otherwise. */
  lemma {:induction false} FinalStartAtBoundary(q: nat, end: nat)
    requires q * CHUNK_SIZE <= end
    ensures FinalStart(q * CHUNK_SIZE, end) == if end % CHUNK_SIZE == 0 then end else end + 1
    decreases end - q * CHUNK_SIZE
  {
    var start := q * CHUNK_SIZE;
    if start < end {
      var next := NextStart(start, end);
      if next <= end {
        assert next == (q + 1) * CHUNK_SIZE;
        FinalStartAtBoundary(q + 1, end);
      } else {
        ModInChunk(end, q);
      }
    } else {
      ModInChunk(end, q);
    }
  }

  /** Where the loop of `download` stops for a resource of `length` bytes. */
  lemma LoopExit(length: nat)
    requires length >= 1
    ensures FinalStart(0, length - 1) == if (length - 1) % CHUNK_SIZE == 0 then length - 1 else length
  {
    FinalStartAtBoundary(0, length - 1);
  }

  /** The bytes `download` requests: all of `[0, length)` when
      `(length - 1) % CHUNK_SIZE != 0`, and all but the last byte otherwise. */
  lemma WindowsCoverage(length: nat, b: nat)
    requires length >= 1
    ensures Requested(Windows(length), b) <==>
              if (length - 1) % CHUNK_SIZE == 0 then b < length - 1 else b < length
  {
    WindowsFromCover(0, length - 1, b);
    LoopExit(length);
  }

  /** The requested windows add up to `length` bytes, or `length - 1` when
      the last byte is skipped. */
  lemma WindowsTotalSize(length: nat)
    requires length >= 1
    ensures TotalSize(Windows(length)) ==
              if (length - 1) % CHUNK_SIZE == 0 then length - 1 else length
  {
    TotalSizeFrom(0, length - 1);
    LoopExit(length);
  }

  /** The last byte of the resource is requested if and only if
      `length - 1` is not a multiple of CHUNK_SIZE. */
  lemma LastByteRequestedIff(length: nat)
    requires length >= 1
    ensures Requested(Windows(length), length - 1) <==> (length - 1) % CHUNK_SIZE != 0
  {
    WindowsCoverage(length, length - 1);
  }

  /** Two concrete lengths for which the final byte is never requested: a
      one-byte resource gets no request at all, and a resource of
      CHUNK_SIZE + 1 bytes gets only the window `0..=10239`. */
  lemma LastByteMissedExamples()
    ensures Windows(1) == []
    ensures Windows(CHUNK_SIZE + 1) == [Window(0, CHUNK_SIZE - 1)]
    ensures !Requested(Windows(CHUNK_SIZE + 1), CHUNK_SIZE)
  {
    assert WindowsFrom(CHUNK_SIZE, CHUNK_SIZE) == [];
    LastByteRequestedIff(CHUNK_SIZE + 1);
  }

  // ---------------------------------------------------------------------
  // The planner with the loop guard `start < length` (equivalently
  // `start <= end`), which is what the code evidently intends
  // ---------------------------------------------------------------------

  function CoveringWindowsFrom(start: nat, length: nat): (ws: seq<Window>)
    ensures |ws| > 0 <==> start < length
    decreases length - start
  {
    if start < length then
      var next := start + Min(CHUNK_SIZE, length - start);
      [Window(start, next - 1)] + CoveringWindowsFrom(next, length)
    else
      []
  }

  /** Corrected planner: also defined for an empty resource. */
  function CoveringWindows(length: nat): seq<Window>
  {
    CoveringWindowsFrom(0, length)
  }

  lemma {:induction false} CoveringWindowsFromExact(start: nat, length: nat, b: nat)
    ensures Requested(CoveringWindowsFrom(start, length), b) <==> start <= b < length
    decreases length - start
  {
    var ws := CoveringWindowsFrom(start, length);
    if start < length {
      var next := start + Min(CHUNK_SIZE, length - start);
      var rest := CoveringWindowsFrom(next, length);
      assert ws == [Window(start, next - 1)] + rest;
      CoveringWindowsFromExact(next, length, b);
      if Requested(rest, b) {
        var i :| 0 <= i < |rest| && rest[i].first <= b <= rest[i].last;
        assert ws[i + 1] == rest[i];
      }
      if Requested(ws, b) && !(start <= b < next) {
        var i :| 0 <= i < |ws| && ws[i].first <= b <= ws[i].last;
        assert i > 0 && ws[i] == rest[i - 1];
      }
      if start <= b < next {
        assert ws[0].first <= b <= ws[0].last;
      }
    }
  }

  /** The corrected windows keep the shape of the written ones: each asks
      for 1 to CHUNK_SIZE bytes inside `[start, length)`, right after the
      previous one. */
  lemma {:induction false} CoveringWindowsFromShape(start: nat, length: nat)
    ensures var ws := CoveringWindowsFrom(start, length);
            && (|ws| > 0 ==> ws[0].first == start)
            && (forall i :: 0 <= i < |ws| ==> start <= ws[i].first <= ws[i].last < length)
            && (forall i :: 0 <= i < |ws| ==> 1 <= Size(ws[i]) <= CHUNK_SIZE)
            && (forall i :: 0 <= i < |ws| - 1 ==> ws[i + 1].first == ws[i].last + 1)
    decreases length - start
  {
    if start < length {
      var next := start + Min(CHUNK_SIZE, length - start);
      var ws := CoveringWindowsFrom(start, length);
      var rest := CoveringWindowsFrom(next, length);
      CoveringWindowsFromShape(next, length);
      assert ws == [Window(start, next - 1)] + rest;
      forall i | 0 <= i < |ws| - 1 ensures ws[i + 1].first == ws[i].last + 1 {
        if i > 0 { assert ws[i] == rest[i - 1] && ws[i + 1] == rest[i]; }
      }
    }
  }

  /** The corrected planner requests every byte of the resource and nothing
      beyond it, for every length. */
  lemma CoveringWindowsExact(length: nat, b: nat)
    ensures Requested(CoveringWindows(length), b) <==> b < length
  {
    CoveringWindowsFromExact(0, length, b);
  }

  /** The corrected windows from `start` add up to the rest of the resource. */
  lemma {:induction false} CoveringTotalSizeFrom(start: nat, length: nat)
    requires start <= length
    ensures TotalSize(CoveringWindowsFrom(start, length)) == length - start
    decreases length - start
  {
    if start < length {
      var next := start + Min(CHUNK_SIZE, length - start);
      var ws := CoveringWindowsFrom(start, length);
      assert ws[1..] == CoveringWindowsFrom(next, length);
      CoveringTotalSizeFrom(next, length);
    }
  }

  /** The corrected windows add up to exactly `length` bytes. */
  lemma CoveringTotalSize(length: nat)
    ensures TotalSize(CoveringWindows(length)) == length
  {
    CoveringTotalSizeFrom(0, length);
  }

  /** From a start a whole number of chunks before `end`, the written
      guard and the corrected one plan the same windows. */
  lemma {:induction false} WindowsAgreeFrom(start: nat, end: nat)
    requires start <= end && (end - start) % CHUNK_SIZE != 0
    ensures WindowsFrom(start, end) == CoveringWindowsFrom(start, end + 1)
    decreases end - start
  {
    var next := NextStart(start, end);
    if next <= end {
      ModShift(end - next);
      WindowsAgreeFrom(next, end);
    }
  }

  lemma ModShift(x: nat)
    ensures (x + CHUNK_SIZE) % CHUNK_SIZE == x % CHUNK_SIZE
  {
    ModInChunk(x % CHUNK_SIZE + (x / CHUNK_SIZE + 1) * CHUNK_SIZE, x / CHUNK_SIZE + 1);
  }

  /** The planner as written and the corrected one request the same windows
      exactly when the last byte is not a chunk boundary. */
  lemma WindowsAgreeIff(length: nat)
    requires length >= 1
    ensures Windows(length) == CoveringWindows(length) <==> (length - 1) % CHUNK_SIZE != 0
  {
    if (length - 1) % CHUNK_SIZE != 0 {
      WindowsAgreeFrom(0, length - 1);
    } else {
      LastByteRequestedIff(length);
      CoveringWindowsExact(length, length - 1);
    }
  }
}
