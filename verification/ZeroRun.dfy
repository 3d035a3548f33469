/** The scan of a downloaded file for a dropped segment (`scan_for_zero_runs` in `verify.rs`). */
module ZeroRun {
  import opened Outcomes
  import opened Text

  type Byte = b: int | 0 <= b < 256

  const ZERO_RUN_THRESHOLD: nat := 4 * 1024 * 1024
  const SCAN_CHUNK_BYTES: nat := 1024 * 1024

  datatype Verdict = Clean | ZeroRun(offset: nat, runBytes: nat) | Unreadable

  /** `u64::saturating_add`. */
  function SaturatingAdd(a: nat, b: nat): nat {
    if a + b > U64_MAX then U64_MAX else a + b
  }

  ghost predicate ZeroWindow(data: seq<Byte>, start: nat, size: nat) {
    start + size <= |data| && forall k | start <= k < start + size :: data[k] == 0
  }

  /** An open file: reads are short at will, and may fail; `failed` remembers that one did. */
  class Reader {
    const data: seq<Byte>
    var pos: nat
    var failed: bool

    constructor (data: seq<Byte>)
      ensures this.data == data && pos == 0 && !failed
    {
      this.data, pos, failed := data, 0, false;
    }

    method Read(buffer: array<Byte>) returns (r: Result<nat, string>)
      requires pos <= |data| && buffer.Length > 0
      modifies this, buffer
      ensures old(pos) <= pos <= |data|
      ensures failed == (old(failed) || r.Err?)
      ensures r.Err? ==> pos == old(pos)
      ensures r.Ok? ==>
                && r.value <= buffer.Length && pos == old(pos) + r.value && buffer[..r.value] == data[old(pos)..pos]
                && (r.value == 0 <==> old(pos) == |data|)
    {
      var fails: bool := *;
      if fails {
        failed := true;
        return Err("read failed");
      }
      var room := if |data| - pos < buffer.Length then |data| - pos else buffer.Length;
      var n: nat :| n <= room && (n == 0 <==> room == 0);
      forall i | 0 <= i < n {
        buffer[i] := data[pos + i];
      }
      pos := pos + n;
      r := Ok(n);
    }
  }

  /** The scanner after the first `p` bytes: the zeros it ends with, and no window so far. */
  ghost predicate Scanned(data: seq<Byte>, threshold: nat, p: nat, runBytes: nat, runStart: nat) {
    && p <= |data| && runBytes <= p && runBytes < threshold
    && (forall k | p - runBytes <= k < p :: data[k] == 0)
    && (runBytes < p ==> data[p - runBytes - 1] != 0)
    && (runBytes > 0 ==> runStart == SaturatingAdd(0, p - runBytes))
    && (forall i: nat | i + threshold <= p :: !ZeroWindow(data, i, threshold))
  }

  /** One more byte that does not complete a window. */
  lemma NoNewWindow(data: seq<Byte>, threshold: nat, p: nat, runBytes: nat, runStart: nat)
    requires Scanned(data, threshold, p, runBytes, runStart) && p < |data|
    requires data[p] != 0 || runBytes + 1 < threshold
    ensures data[p] != 0 ==> Scanned(data, threshold, p + 1, 0, runStart)
    ensures data[p] == 0 ==>
              Scanned(data, threshold, p + 1, runBytes + 1, if runBytes == 0 then SaturatingAdd(0, p) else runStart)
  {
    forall i: nat | i + threshold == p + 1
      ensures !ZeroWindow(data, i, threshold)
    {
      assert if data[p] != 0 then i <= p else i <= p - runBytes - 1;
    }
  }

  ghost predicate FirstWindow(data: seq<Byte>, start: nat, size: nat) {
    ZeroWindow(data, start, size) && forall i: nat | i < start :: !ZeroWindow(data, i, size)
  }

  lemma WindowCompleted(data: seq<Byte>, threshold: nat, p: nat, runBytes: nat, runStart: nat)
    requires Scanned(data, threshold, p, runBytes, runStart) && p < |data| && data[p] == 0 && runBytes + 1 == threshold
    ensures FirstWindow(data, p - runBytes, threshold)
  {}

  /** The inner loop, over the bytes of one read; `hit` once a run reaches the threshold. */
  method ScanChunk(chunk: seq<Byte>, offset: nat, threshold: nat, run: nat, from: nat,
                   ghost data: seq<Byte>, ghost pos: nat)
    returns (hit: bool, runBytes: nat, runStart: nat)
    requires pos + |chunk| <= |data| && chunk == data[pos..pos + |chunk|]
    requires offset == SaturatingAdd(0, pos) && Scanned(data, threshold, pos, run, from)
    ensures !hit ==> Scanned(data, threshold, pos + |chunk|, runBytes, runStart)
    ensures hit ==> runBytes == threshold
                    && exists first: nat :: runStart == SaturatingAdd(0, first) && FirstWindow(data, first, threshold)
  {
    runBytes, runStart := run, from;
    for index := 0 to |chunk|
      invariant Scanned(data, threshold, pos + index, runBytes, runStart)
    {
      assert chunk[index] == data[pos + index];
      if chunk[index] == 0 {
        if runBytes + 1 < threshold {
          NoNewWindow(data, threshold, pos + index, runBytes, runStart);
        } else {
          WindowCompleted(data, threshold, pos + index, runBytes, runStart);
        }
        if runBytes == 0 {
          runStart := SaturatingAdd(offset, index);
        }
        runBytes := runBytes + 1;
        if runBytes >= threshold {
          return true, runBytes, runStart;
        }
      } else {
        NoNewWindow(data, threshold, pos + index, runBytes, runStart);
        runBytes := 0;
      }
    }
    hit := false;
  }

  /**
   The scan reports the first window of `threshold` zero bytes if and only if
   there is one, whatever the buffer size and however the file is read; it gives
   up only when a read failed. Offsets saturate at the width of `u64`.
   */
  method ScanForZeroRuns(file: Reader, threshold: nat, chunkBytes: nat) returns (verdict: Verdict)
    requires threshold > 0 && chunkBytes > 0 && file.pos == 0 && !file.failed
    modifies file
    ensures verdict.Unreadable? <==> file.failed
    ensures !file.failed ==> (verdict.Clean? <==> !exists i: nat :: ZeroWindow(file.data, i, threshold))
    ensures verdict.ZeroRun? ==>
              && verdict.runBytes == threshold
              && exists first: nat ::
                   && verdict.offset == (if first <= U64_MAX then first else U64_MAX)
                   && FirstWindow(file.data, first, threshold)
  {
    var buffer := new Byte[chunkBytes](_ => 0);
    var offset: nat, runBytes: nat, runStart: nat := 0, 0, 0;
    var hit: bool;
    while true
      invariant !file.failed && file.pos <= |file.data| && offset == SaturatingAdd(0, file.pos)
      invariant Scanned(file.data, threshold, file.pos, runBytes, runStart)
      decreases |file.data| - file.pos
    {
      ghost var pos := file.pos;
      var read := file.Read(buffer);
      if read.Err? {
        return Unreadable;
      }
      if read.value == 0 {
        break;
      }
      hit, runBytes, runStart := ScanChunk(buffer[..read.value], offset, threshold, runBytes, runStart, file.data, pos);
      if hit {
        return ZeroRun(runStart, runBytes);
      }
      offset := SaturatingAdd(offset, read.value);
    }
    verdict := Clean;
  }

  /** The program's scan: four mebibytes of zeros, read a mebibyte at a time. */
  method ScanFile(file: Reader) returns (verdict: Verdict)
    requires file.pos == 0 && !file.failed
    modifies file
    ensures verdict.Unreadable? <==> file.failed
    ensures !file.failed ==> (verdict.Clean? <==> !exists i: nat :: ZeroWindow(file.data, i, ZERO_RUN_THRESHOLD))
    ensures verdict.ZeroRun? ==>
              && verdict.runBytes == ZERO_RUN_THRESHOLD
              && exists first: nat ::
                   && verdict.offset == (if first <= U64_MAX then first else U64_MAX)
                   && FirstWindow(file.data, first, ZERO_RUN_THRESHOLD)
  {
    verdict := ScanForZeroRuns(file, ZERO_RUN_THRESHOLD, SCAN_CHUNK_BYTES);
  }

  /** Any two reports about one file agree, so the outcome does not depend on how it was read. */
  lemma FirstWindowIsUnique(data: seq<Byte>, threshold: nat, a: nat, b: nat)
    requires FirstWindow(data, a, threshold) && FirstWindow(data, b, threshold)
    ensures a == b
  {}
}
