/**
  The firmware console reader (`log_read`). The firmware writes its
  console into a 1 KiB ring in chip RAM and advances a write index; the
  host walks the ring from where it stopped to that index, collecting
  bytes into a 256-byte line and emitting the line at every CR or LF.
  A line longer than the buffer is cut: the bytes that do not fit are
  dropped until the next line end.
 */
module FwLog {
  import opened Bytes

  /** The console ring, `[0; 0x400]`. */
  const RING_SIZE: nat := 0x400
  /** The host's line buffer, `LogState::buf`. */
  const LINE_CAPACITY: nat := 256

  /**
    The host's reader state: the next ring position to read and the bytes
    of the line collected so far (`buf[..buf_count]`).
   */
  datatype LogState = LogState(lastIdx: nat, line: seq<u8>)

  /** Bytes that end a console line: CR and LF. */
  predicate IsLineEnd(b: u8)
  {
    b == 13 || b == 10
  }

  predicate NoLineEnd(bytes: seq<u8>)
  {
    forall i :: 0 <= i < |bytes| ==> !IsLineEnd(bytes[i])
  }

  /** A line as the host may emit it: non-empty, within the buffer, without line ends. */
  predicate WellFormedLine(l: seq<u8>)
  {
    0 < |l| <= LINE_CAPACITY && NoLineEnd(l)
  }

  /** What fits in the line buffer: the first 256 bytes. */
  function Cap(text: seq<u8>): (c: seq<u8>)
    ensures |c| <= LINE_CAPACITY && c <= text
    ensures |text| <= LINE_CAPACITY ==> c == text
    ensures |text| > LINE_CAPACITY ==> |c| == LINE_CAPACITY
  {
    if |text| <= LINE_CAPACITY then text else text[..LINE_CAPACITY]
  }

  /** The lines emitted so far and the line under construction. */
  datatype Scanned = Scanned(lines: seq<seq<u8>>, line: seq<u8>)

  /** One pass of the loop body on byte `b`. */
  function Feed(acc: Scanned, b: u8): Scanned
  {
    if IsLineEnd(b) then
      if |acc.line| != 0 then Scanned(acc.lines + [acc.line], []) else acc
    else if |acc.line| < LINE_CAPACITY then Scanned(acc.lines, acc.line + [b])
    else acc
  }

  /** Feeding `bytes` one after another to a reader holding `line`. */
  function Scan(line: seq<u8>, bytes: seq<u8>): Scanned
    decreases |bytes|
  {
    if bytes == [] then Scanned([], line)
    else Feed(Scan(line, bytes[..|bytes| - 1]), bytes[|bytes| - 1])
  }

  /** A position past the end of the ring, folded back to its start. */
  function Wrap(i: nat): (w: nat)
    requires i < 2 * RING_SIZE
    ensures w < RING_SIZE && w == i % RING_SIZE
  {
    if i < RING_SIZE then i else i - RING_SIZE
  }

  /** How far the reader must walk the ring from `from` to reach `to`. */
  function Distance(from: nat, to: nat): (d: nat)
    requires from < RING_SIZE && to < RING_SIZE
    ensures d < RING_SIZE && Wrap(from + d) == to
    ensures d == 0 <==> from == to
  {
    if from <= to then to - from else to + RING_SIZE - from
  }

  /** The `k` ring bytes starting at `start`, wrapping from the end of the ring to its start. */
  function RingWindow(ring: seq<u8>, start: nat, k: nat): (w: seq<u8>)
    requires |ring| == RING_SIZE && start < RING_SIZE && k <= RING_SIZE
    ensures |w| == k
    ensures forall i :: 0 <= i < k ==> w[i] == ring[Wrap(start + i)]
    ensures start + k <= RING_SIZE ==> w == ring[start..start + k]
    ensures start + k > RING_SIZE ==> w == ring[start..] + ring[..start + k - RING_SIZE]
  {
    var w := seq(k, i requires 0 <= i < k => ring[Wrap(start + i)]);
    if start + k <= RING_SIZE then
      assert w == ring[start..start + k] by {
        forall i | 0 <= i < k
          ensures w[i] == ring[start..start + k][i]
        {
          assert Wrap(start + i) == start + i;
        }
      }
      w
    else
      assert w == ring[start..] + ring[..start + k - RING_SIZE] by {
        var tail, head := ring[start..], ring[..start + k - RING_SIZE];
        forall i | 0 <= i < k
          ensures w[i] == (tail + head)[i]
        {
          if i < |tail| {
            assert Wrap(start + i) == start + i;
          } else {
            assert Wrap(start + i) == i - |tail|;
          }
        }
      }
      w
  }

  /**
    `log_read` after the ring and the write index `idx` have been read:
    the reader walks from `lastIdx` to `idx` and ends there, and what it
    emits and keeps is the scan of the ring bytes in between. An unchanged
    index reads nothing. A write index outside the ring is never reached
    by the walk, so the source would spin forever; the firmware must keep
    it inside.
   */
  method LogRead(st: LogState, idx: nat, ring: seq<u8>) returns (next: LogState, lines: seq<seq<u8>>)
    requires |ring| == RING_SIZE && st.lastIdx < RING_SIZE && idx < RING_SIZE
    ensures next.lastIdx == idx
    ensures Scanned(lines, next.line) == Scan(st.line, RingWindow(ring, st.lastIdx, Distance(st.lastIdx, idx)))
    ensures idx == st.lastIdx ==> next == st && lines == []
  {
    if idx == st.lastIdx {
      return st, [];
    }
    var last := st.lastIdx;
    var line := st.line;
    lines := [];
    ghost var k := 0;
    while last != idx
      invariant k < RING_SIZE && last == Wrap(st.lastIdx + k)
      invariant k + Distance(last, idx) == Distance(st.lastIdx, idx)
      invariant Scanned(lines, line) == Scan(st.line, RingWindow(ring, st.lastIdx, k))
      decreases Distance(last, idx)
    {
      var b := ring[last];
      ghost var prev := last;
      ghost var before := Scanned(lines, line);
      lines, line := Consume(lines, line, b);
      last := last + 1;
      if last == RING_SIZE {
        last := 0;
      }
      WindowStep(st.line, ring, st.lastIdx, k, before, Scanned(lines, line));
      RingAdvance(st.lastIdx, k, prev, idx);
      k := k + 1;
    }
    next := LogState(last, line);
  }

  /**
    The loop body on one byte: a line end emits the collected line, if
    any, and empties the buffer; another byte is kept while the buffer
    has room and dropped otherwise.
   */
  method Consume(lines: seq<seq<u8>>, line: seq<u8>, b: u8) returns (lines': seq<seq<u8>>, line': seq<u8>)
    ensures Scanned(lines', line') == Feed(Scanned(lines, line), b)
    ensures lines' == lines || (IsLineEnd(b) && |line| != 0 && lines' == lines + [line] && line' == [])
    ensures |line| <= LINE_CAPACITY && NoLineEnd(line)
            ==> |line'| <= LINE_CAPACITY && NoLineEnd(line')
                && (lines' != lines ==> WellFormedLine(lines'[|lines'| - 1]))
  {
    lines', line' := lines, line;
    if b == 13 || b == 10 {
      if |line| != 0 {
        lines' := lines + [line];
        line' := [];
      }
    } else if |line| < LINE_CAPACITY {
      line' := line + [b];
    }
  }

  /** One more step of the walk feeds one more ring byte. */
  lemma WindowStep(line: seq<u8>, ring: seq<u8>, start: nat, k: nat, before: Scanned, after: Scanned)
    requires |ring| == RING_SIZE && start < RING_SIZE && k < RING_SIZE
    requires before == Scan(line, RingWindow(ring, start, k))
    requires after == Feed(before, ring[Wrap(start + k)])
    ensures after == Scan(line, RingWindow(ring, start, k + 1))
  {
    assert RingWindow(ring, start, k + 1)[..k] == RingWindow(ring, start, k);
  }

  /** The read position, stepped and wrapped at the end of the ring, is one step further on and one step closer. */
  lemma RingAdvance(start: nat, k: nat, last: nat, to: nat)
    requires start < RING_SIZE && to < RING_SIZE && k < RING_SIZE
    requires last == Wrap(start + k) && last != to
    requires k + Distance(last, to) == Distance(start, to)
    ensures var next := if last + 1 == RING_SIZE then 0 else last + 1;
            && k + 1 < RING_SIZE
            && next == Wrap(start + k + 1)
            && Distance(next, to) == Distance(last, to) - 1
  {
  }

  /** Scanning two stretches of bytes is scanning the first, then the second from where it left off. */
  lemma {:induction false} ScanAppend(line: seq<u8>, a: seq<u8>, b: seq<u8>)
    ensures var x := Scan(line, a);
            var y := Scan(x.line, b);
            Scan(line, a + b) == Scanned(x.lines + y.lines, y.line)
    decreases |b|
  {
    var x := Scan(line, a);
    if b == [] {
      assert a + b == a;
    } else {
      var b0 := b[..|b| - 1];
      assert (a + b)[..|a + b| - 1] == a + b0;
      ScanAppend(line, a, b0);
      var y0 := Scan(x.line, b0);
      var last := b[|b| - 1];
      assert Scan(line, a + b) == Feed(Scanned(x.lines + y0.lines, y0.line), last);
      assert Scan(x.line, b) == Feed(y0, last);
    }
  }

  /**
    Bytes without a line end emit nothing: they join the line until the
    buffer is full, and the rest is dropped.
   */
  lemma {:induction false} NoLineEndAppends(line: seq<u8>, bytes: seq<u8>)
    requires |line| <= LINE_CAPACITY && NoLineEnd(bytes)
    ensures Scan(line, bytes) == Scanned([], Cap(line + bytes))
    decreases |bytes|
  {
    if bytes == [] {
      assert line + bytes == line;
    } else {
      var pre := bytes[..|bytes| - 1];
      var b := bytes[|bytes| - 1];
      assert NoLineEnd(pre) by {
        forall i | 0 <= i < |pre|
          ensures !IsLineEnd(pre[i])
        {
          assert pre[i] == bytes[i];
        }
      }
      NoLineEndAppends(line, pre);
      var held := Cap(line + pre);
      assert Scan(line, bytes) == Feed(Scanned([], held), b);
      assert !IsLineEnd(b);
      assert line + bytes == (line + pre) + [b];
      if |line + pre| < LINE_CAPACITY {
        assert held == line + pre;
      } else {
        assert |held| == LINE_CAPACITY;
        assert (line + bytes)[..LINE_CAPACITY] == (line + pre)[..LINE_CAPACITY];
      }
    }
  }

  /**
    A line end emits what the line buffer holds, the line so far plus the
    bytes before the line end as far as they fit, unless that is empty,
    and the reader starts afresh on the bytes after it.
   */
  lemma {:induction false} LineEndFlushes(line: seq<u8>, pre: seq<u8>, nl: u8, post: seq<u8>)
    requires |line| <= LINE_CAPACITY && NoLineEnd(pre) && IsLineEnd(nl)
    ensures var held := Cap(line + pre);
            var rest := Scan([], post);
            Scan(line, pre + [nl] + post)
            == Scanned((if held == [] then [] else [held]) + rest.lines, rest.line)
  {
    var held := Cap(line + pre);
    ScanAppend(line, pre + [nl], post);
    ScanAppend(line, pre, [nl]);
    NoLineEndAppends(line, pre);
    assert Scan(held, [nl]) == Feed(Scan(held, []), nl) by {
      assert [nl][..0] == [];
    }
    var rest := Scan([], post);
    if held == [] {
      assert Scan(line, pre + [nl] + post) == Scanned([] + rest.lines, rest.line);
    } else {
      assert Scan(line, pre + [nl] + post) == Scanned([held] + rest.lines, rest.line);
    }
  }

  /**
    Everything the reader emits is a well-formed line, and the line it
    keeps stays within the buffer and free of line ends, provided it
    started that way.
   */
  lemma {:induction false} ScanEmitsWellFormedLines(line: seq<u8>, bytes: seq<u8>)
    requires |line| <= LINE_CAPACITY && NoLineEnd(line)
    ensures var r := Scan(line, bytes);
            && (forall i :: 0 <= i < |r.lines| ==> WellFormedLine(r.lines[i]))
            && |r.line| <= LINE_CAPACITY && NoLineEnd(r.line)
    decreases |bytes|
  {
    if bytes != [] {
      var pre := bytes[..|bytes| - 1];
      var b := bytes[|bytes| - 1];
      ScanEmitsWellFormedLines(line, pre);
      var acc := Scan(line, pre);
      var r := Feed(acc, b);
      assert Scan(line, bytes) == r;
      if !IsLineEnd(b) && |acc.line| < LINE_CAPACITY {
        assert r.line == acc.line + [b];
        assert forall i :: 0 <= i < |r.line| ==> r.line[i] == if i < |acc.line| then acc.line[i] else b;
      } else if IsLineEnd(b) && |acc.line| != 0 {
        assert r.lines == acc.lines + [acc.line];
        assert forall i :: 0 <= i < |r.lines| ==> r.lines[i] == if i < |acc.lines| then acc.lines[i] else acc.line;
      }
    }
  }
}
