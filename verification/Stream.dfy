/** core/stream.go: one stream's byte ring, and the bounded queue it refines. */
module Stream {
  import opened Bytes
  import opened Modular

  const DEFAULT_CAPACITY := 64 * 1024
  const DEFAULT_CHUNK := 64 * 1024

  datatype Mode = Block | Drop | Error

  /** A mount's stream settings as the caller wrote them. */
  datatype StreamConfig = StreamConfig(capacity: int, mode: Mode, maxChunkSize: int)

  /** Settings of a built buffer: both sizes are positive. */
  datatype Limits = Limits(capacity: nat, mode: Mode, maxChunk: nat) {
    predicate Valid() {
      capacity > 0 && maxChunk > 0
    }
  }

  /** One locked section of `read` or `write`: either it returns, or it parks on the condition. */
  datatype ReadOutcome = ReadParked | ReadEagain | ReadDone(n: nat)

  datatype WriteOutcome = WriteParked | WriteEagain | WriteNoSpace | WritePipe | WriteDone(n: nat)

  /** The object every ring refines: a queue of bytes and a closed flag. */
  datatype Queue = Queue(contents: seq<byte>, closed: bool)

  function Chunk(lim: Limits, p: seq<byte>): (c: seq<byte>)
    ensures c <= p && (lim.Valid() && p != [] ==> c != [])
    ensures |c| == if 0 < lim.maxChunk < |p| then lim.maxChunk else |p|
  {
    if lim.maxChunk > 0 && |p| > lim.maxChunk then p[..lim.maxChunk] else p
  }

  /** The last `n` elements, or everything when there are fewer. */
  function Last(s: seq<byte>, n: nat): (t: seq<byte>)
    ensures |t| == Min(|s|, n)
  {
    if |s| <= n then s else s[|s| - n..]
  }

  // ---- the queue's operations ----

  predicate ReadMustWait(q: Queue) {
    q.contents == [] && !q.closed
  }

  predicate WriteMustWait(lim: Limits, q: Queue, chunk: seq<byte>) {
    lim.mode == Block && !q.closed && |q.contents| + |chunk| > lim.capacity
  }

  function ReadOutcomeOf(q: Queue, want: nat, nonblock: bool): ReadOutcome {
    if ReadMustWait(q) then
      if nonblock then ReadEagain else ReadParked
    else
      ReadDone(Min(want, |q.contents|))
  }

  function AfterRead(q: Queue, out: ReadOutcome): Queue {
    if out.ReadDone? && out.n <= |q.contents| then q.(contents := q.contents[out.n..]) else q
  }

  function WriteOutcomeOf(lim: Limits, q: Queue, chunk: seq<byte>, nonblock: bool): WriteOutcome {
    if q.closed then
      WritePipe
    else if WriteMustWait(lim, q, chunk) then
      if nonblock then WriteEagain else WriteParked
    else if lim.mode == Error && |q.contents| + |chunk| > lim.capacity then
      WriteNoSpace
    else
      WriteDone(|chunk|)
  }

  /** A write that goes through keeps the newest `capacity` bytes. */
  function AfterWrite(lim: Limits, q: Queue, chunk: seq<byte>, out: WriteOutcome): Queue {
    if out.WriteDone? then q.(contents := Last(q.contents + chunk, lim.capacity)) else q
  }

  /** What a section of `write` answers, and what it leaves in the queue. */
  lemma WriteAnswers(lim: Limits, q: Queue, p: seq<byte>, nonblock: bool)
    requires lim.Valid()
    ensures var c := Chunk(lim, p);
            var out := WriteOutcomeOf(lim, q, c, nonblock);
            var full, all := |q.contents| + |c| > lim.capacity, q.contents + c;
            && c == p[..if |p| > lim.maxChunk then lim.maxChunk else |p|]
            && (out == WritePipe <==> q.closed)
            && (out == WriteParked <==> !q.closed && lim.mode == Block && full && !nonblock)
            && (out == WriteEagain <==> !q.closed && lim.mode == Block && full && nonblock)
            && (out == WriteNoSpace <==> !q.closed && lim.mode == Error && full)
            && (out.WriteDone? ==>
                  && out.n == |c|
                  && AfterWrite(lim, q, c, out)
                     == Queue(all[if full then |all| - lim.capacity else 0..], false))
            && (!out.WriteDone? ==> AfterWrite(lim, q, c, out) == q)
  {
    assert (q.contents + Chunk(lim, p))[0..] == q.contents + Chunk(lim, p);
  }

  // ---- the ring ----

  /** The ring holds the last `capacity` bytes of `s`, laid out from `r`. */
  predicate Holds(buf: seq<byte>, r: nat, s: seq<byte>)
    requires r < |buf|
  {
    forall i :: 0 <= i < |s| && |s| - |buf| <= i ==> buf[Slot(r, i, |buf|)] == s[i]
  }

  /** Storing the next byte at its slot overwrites only the byte that left the window. */
  lemma HoldsPush(buf: seq<byte>, r: nat, s: seq<byte>, x: byte)
    requires r < |buf| && Holds(buf, r, s)
    ensures Holds(buf[Slot(r, |s|, |buf|) := x], r, s + [x])
  {
    var buf' := buf[Slot(r, |s|, |buf|) := x];
    forall i | 0 <= i < |s + [x]| && |s + [x]| - |buf| <= i
      ensures buf'[Slot(r, i, |buf|)] == (s + [x])[i]
    {
      if i < |s| {
        SlotDistinct(r, i, |s|, |buf|);
      }
    }
  }

  /** Moving the base forward past forgotten bytes re-indexes the same slots. */
  lemma HoldsRebase(buf: seq<byte>, r: nat, s: seq<byte>, d: nat)
    requires r < |buf| && d <= |s| <= d + |buf| && Holds(buf, r, s)
    ensures Holds(buf, Slot(r, d, |buf|), s[d..])
  {
    var r' := Slot(r, d, |buf|);
    forall i | 0 <= i < |s[d..]| && |s[d..]| - |buf| <= i
      ensures buf[Slot(r', i, |buf|)] == s[d..][i]
    {
      SlotCompose(r, d, i, |buf|);
    }
  }

  /** What remains after `dropped` bytes is the newest `cap` bytes, when that is why they were dropped. */
  lemma KeptIsLast(s: seq<byte>, p: seq<byte>, dropped: nat, cap: nat)
    requires dropped == if |s| + |p| > cap then |s| + |p| - cap else 0
    ensures dropped <= |s + p| && (s + p)[dropped..] == Last(s + p, cap)
  {
  }

  class StreamBuffer {
    const buf: array<byte>
    var r: nat
    var w: nat
    var count: int
    const capacity: nat
    const mode: Mode
    const maxChunkSize: nat
    var closed: bool
    ghost var contents: seq<byte>

    ghost predicate Valid()
      reads this, buf
    {
      && capacity > 0 && maxChunkSize > 0 && buf.Length == capacity
      && r < capacity
      && 0 <= count <= capacity
      && w == Slot(r, count, capacity)
      && count == |contents| && Holds(buf[..], r, contents)
    }

    ghost function Lim(): Limits
    {
      Limits(capacity, mode, maxChunkSize)
    }

    ghost function View(): Queue
      reads this
    {
      Queue(contents, closed)
    }

    constructor (cfg: Option<StreamConfig>)
      ensures Valid() && fresh(buf)
      ensures View() == Queue([], false)
      ensures cfg.None? ==> capacity == 65536 && mode == Block && maxChunkSize == 65536
      ensures cfg.Some? ==>
                var c := cfg.value;
                && capacity == (if c.capacity > 0 then c.capacity else 65536)
                && mode == c.mode
                && maxChunkSize == (if c.maxChunkSize > 0 then c.maxChunkSize else 65536)
    {
      var cap, m, chunk := DEFAULT_CAPACITY, Block, DEFAULT_CHUNK;
      if cfg.Some? {
        if cfg.value.capacity > 0 { cap := cfg.value.capacity; }
        m := cfg.value.mode;
        if cfg.value.maxChunkSize > 0 { chunk := cfg.value.maxChunkSize; }
      }
      buf := new byte[cap];
      capacity, mode, maxChunkSize := cap, m, chunk;
      r, w, count, closed, contents := 0, 0, 0, false, [];
    }

    /** The copy loop of `read`: moves the oldest bytes into `p` until either runs out. */
    method CopyOut(p: array<byte>) returns (n: nat)
      requires Valid() && p != buf
      modifies this`r, this`count, p
      ensures n == Min(p.Length, |contents|)
      ensures r == Slot(old(r), n, capacity) && count == |contents| - n
      ensures forall k :: 0 <= k < p.Length ==> p[k] == if k < n then contents[k] else old(p[k])
    {
      n := 0;
      ghost var ring := buf[..];
      while n < p.Length && count > 0
        invariant n <= p.Length && n <= |contents| && count == |contents| - n
        invariant r == Slot(old(r), n, capacity)
        invariant buf[..] == ring
        invariant forall k :: 0 <= k < p.Length ==> p[k] == if k < n then contents[k] else old(p[k])
        decreases p.Length - n
      {
        assert ring[Slot(old(r), n, capacity)] == contents[n];
        p[n] := buf[r];
        r := Advance(r, capacity);
        count := count - 1;
        n := n + 1;
      }
    }

    /** One locked section of `read`; `broadcast` tells whether it woke the waiters. */
    method Read(p: array<byte>, nonblock: bool) returns (out: ReadOutcome, broadcast: bool)
      requires Valid() && p != buf
      modifies this`r, this`count, this`contents, p
      ensures Valid()
      ensures out == ReadOutcomeOf(old(View()), p.Length, nonblock)
      ensures View() == AfterRead(old(View()), out)
      ensures out == ReadParked <==> old(contents) == [] && !closed && !nonblock
      ensures out == ReadEagain <==> old(contents) == [] && !closed && nonblock
      ensures out.ReadDone? ==>
                && out.n == (if p.Length < |old(contents)| then p.Length else |old(contents)|)
                && contents == old(contents)[out.n..]
      ensures forall k :: 0 <= k < p.Length ==>
                p[k] == if out.ReadDone? && k < out.n then old(contents)[k] else old(p[k])
      ensures broadcast == (out.ReadDone? && old(contents) != [])
    {
      if count == 0 {
        if closed { return ReadDone(0), false; }
        if nonblock { return ReadEagain, false; }
        return ReadParked, false;
      }
      var n := CopyOut(p);
      SlotCompose(old(r), n, count, capacity);
      HoldsRebase(buf[..], old(r), contents, n);
      contents := contents[n..];
      return ReadDone(n), true;
    }

    /** Drop mode makes room one byte at a time; `count` goes below zero when `n` exceeds the capacity. */
    method DropOldest(n: nat) returns (ghost dropped: nat)
      requires Valid()
      modifies this`r, this`count
      ensures dropped == if old(count) + n > capacity then old(count) + n - capacity else 0
      ensures count == old(count) - dropped && r == Slot(old(r), dropped, capacity)
    {
      dropped := 0;
      while n > capacity - count
        invariant r < capacity && count == old(count) - dropped
        invariant r == Slot(old(r), dropped, capacity)
        invariant dropped == 0 || n >= capacity - count
        decreases count + n
      {
        r := Advance(r, capacity);
        count := count - 1;
        dropped := dropped + 1;
      }
    }

    /** The copy loop of `write`: lays `p` out behind the bytes `s` that start at `r0`. */
    method CopyIn(p: seq<byte>, ghost r0: nat, ghost s: seq<byte>)
      requires buf.Length == capacity && r0 < capacity
      requires w == Slot(r0, |s|, capacity) && Holds(buf[..], r0, s)
      modifies this`w, this`count, buf
      ensures count == old(count) + |p| && w == Slot(r0, |s| + |p|, capacity)
      ensures Holds(buf[..], r0, s + p)
    {
      var i := 0;
      assert s + p[..0] == s;
      while i < |p|
        invariant i <= |p| && count == old(count) + i
        invariant w == Slot(r0, |s| + i, capacity)
        invariant Holds(buf[..], r0, s + p[..i])
      {
        HoldsPush(buf[..], r0, s + p[..i], p[i]);
        ghost var before := buf[..];
        buf[w] := p[i];
        assert buf[..] == before[w := p[i]];
        assert s + p[..i] + [p[i]] == s + p[..i + 1];
        w := Advance(w, capacity);
        count := count + 1;
        i := i + 1;
      }
      assert p[..i] == p;
    }

    /** The tail of `write`: `r` already moved past the `dropped` oldest bytes. */
    method Store(p: seq<byte>, ghost r0: nat, ghost dropped: nat)
      requires capacity > 0 && maxChunkSize > 0 && buf.Length == capacity && r0 < capacity
      requires w == Slot(r0, |contents|, capacity) && Holds(buf[..], r0, contents)
      requires dropped == if |contents| + |p| > capacity then |contents| + |p| - capacity else 0
      requires count == |contents| - dropped && r == Slot(r0, dropped, capacity)
      modifies this`w, this`count, this`contents, buf
      ensures Valid() && contents == Last(old(contents) + p, capacity)
    {
      hide Holds, Last;
      CopyIn(p, r0, contents);
      SlotCompose(r0, dropped, count, capacity);
      HoldsRebase(buf[..], r0, contents + p, dropped);
      KeptIsLast(contents, p, dropped, capacity);
      contents := (contents + p)[dropped..];
    }

    /** One locked section of `write`. */
    method Write(p: seq<byte>, nonblock: bool) returns (out: WriteOutcome, broadcast: bool)
      requires Valid()
      modifies this`r, this`w, this`count, this`contents, buf
      ensures Valid()
      ensures out == WriteOutcomeOf(Lim(), old(View()), Chunk(Lim(), p), nonblock)
      ensures View() == AfterWrite(Lim(), old(View()), Chunk(Lim(), p), out)
      ensures broadcast == out.WriteDone?
    {
      if closed { return WritePipe, false; }
      var toWrite := p;
      if maxChunkSize > 0 && |p| > maxChunkSize {
        toWrite := p[..maxChunkSize];
      }
      ghost var dropped := 0;
      match mode {
        case Error =>
          if |toWrite| > capacity - count { return WriteNoSpace, false; }
        case Drop =>
          dropped := DropOldest(|toWrite|);
        case Block =>
          if |toWrite| > capacity - count {
            if nonblock { return WriteEagain, false; }
            return WriteParked, false;
          }
      }
      Store(toWrite, old(r), dropped);
      return WriteDone(|toWrite|), true;
    }

    method Close()
      requires Valid()
      modifies this`closed
      ensures Valid() && View() == old(View()).(closed := true)
    {
      closed := true;
    }

    /** The payload loop of `FileSystem.Write` run without interruption, until it ends or parks. */
    method WritePayload(payload: seq<byte>, nonblock: bool) returns (rest: seq<byte>, out: WriteOutcome)
      requires Valid()
      modifies this`r, this`w, this`count, this`contents, buf
      ensures Valid()
      ensures PayloadRun(Lim(), old(View()), payload, nonblock) == PayloadEnd(View(), rest, out)
    {
      rest := payload;
      while rest != []
        invariant Valid()
        invariant PayloadRun(Lim(), old(View()), payload, nonblock)
               == PayloadRun(Lim(), View(), rest, nonblock)
        decreases |rest|
      {
        ghost var q := View();
        var broadcast;
        out, broadcast := Write(rest, nonblock);
        if !out.WriteDone? { return; }
        rest := rest[out.n..];
      }
      out := WriteDone(0);
    }
  }

  /** Queue after the payload loop, the bytes left unwritten, and how the last write came out. */
  datatype PayloadEnd = PayloadEnd(queue: Queue, rest: seq<byte>, out: WriteOutcome)

  function PayloadRun(lim: Limits, q: Queue, payload: seq<byte>, nonblock: bool): PayloadEnd
    requires lim.Valid()
    decreases |payload|
  {
    if payload == [] then PayloadEnd(q, [], WriteDone(0))
    else
      var c := Chunk(lim, payload);
      var out := WriteOutcomeOf(lim, q, c, nonblock);
      if out.WriteDone? then PayloadRun(lim, AfterWrite(lim, q, c, out), payload[|c|..], nonblock)
      else PayloadEnd(q, payload, out)
  }

  /** Keeping the last `n` twice is keeping the last `n` of the whole. */
  lemma LastAbsorbs(s: seq<byte>, t: seq<byte>, n: nat)
    ensures Last(Last(s, n) + t, n) == Last(s + t, n)
  {
    if |s| > n {
      var k, u := |s| - n, s + t;
      assert s[k..] + t == u[k..];
      assert Last(s, n) == s[k..] && Last(u, n) == u[k + |t|..] && Last(u[k..], n) == u[k..][|t|..];
      hide Last;
      DropTwice(u, k, |t|);
    } else {
      assert Last(s, n) == s;
    }
  }

  lemma DropTwice(s: seq<byte>, k: nat, j: nat)
    requires k + j <= |s|
    ensures s[k..][j..] == s[k + j..]
  {
  }

  lemma LastInTwoSteps(s: seq<byte>, payload: seq<byte>, k: nat, n: nat)
    requires k <= |payload|
    ensures Last(Last(s + payload[..k], n) + payload[k..], n) == Last(s + payload, n)
  {
    LastAbsorbs(s + payload[..k], payload[k..], n);
    assert s + payload[..k] + payload[k..] == s + payload;
  }

  lemma LastOfAll(s: seq<byte>, n: nat)
    requires |s| <= n
    ensures Last(s, n) == s
  {
  }

  /** Drop mode: a payload of any length and any chunk size leaves the newest `capacity` bytes. */
  lemma {:induction false} DropPayload(lim: Limits, q: Queue, payload: seq<byte>, nonblock: bool)
    requires lim.Valid() && lim.mode == Drop && !q.closed && |q.contents| <= lim.capacity
    ensures PayloadRun(lim, q, payload, nonblock)
         == PayloadEnd(Queue(Last(q.contents + payload, lim.capacity), false), [], WriteDone(0))
    decreases |payload|
  {
    hide Chunk, Last;
    if payload == [] {
      assert q.contents + payload == q.contents;
      LastOfAll(q.contents, lim.capacity);
    } else {
      var c := Chunk(lim, payload);
      assert c == payload[..|c|];
      var q' := Queue(Last(q.contents + c, lim.capacity), false);
      DropPayload(lim, q', payload[|c|..], nonblock);
      LastInTwoSteps(q.contents, payload, |c|, lim.capacity);
    }
  }

  /**
   * Block and Error mode: a payload that fits goes in whole. Of one that does not, `n` whole chunks go in, as many
   * as there is room for, and the loop ends with the mode's answer. So a failed write may have written a part.
   */
  lemma {:induction false} FullPayload(lim: Limits, q: Queue, payload: seq<byte>, nonblock: bool) returns (n: nat)
    requires lim.Valid() && lim.mode != Drop && !q.closed && |q.contents| <= lim.capacity
    ensures var room := lim.capacity - |q.contents|;
            if |payload| <= room then
              PayloadRun(lim, q, payload, nonblock) == PayloadEnd(Queue(q.contents + payload, false), [], WriteDone(0))
            else
              && n * lim.maxChunk <= room < n * lim.maxChunk + lim.maxChunk
              && PayloadRun(lim, q, payload, nonblock)
                 == PayloadEnd(Queue(q.contents + payload[..n * lim.maxChunk], false), payload[n * lim.maxChunk..],
                               if lim.mode == Error then WriteNoSpace
                               else if nonblock then WriteEagain else WriteParked)
    decreases |payload|
  {
    hide PayloadRun, Chunk;
    var c, room := Chunk(lim, payload), lim.capacity - |q.contents|;
    n := 0;
    if |payload| == 0 {
      NothingGoesIn(lim, q, payload, nonblock);
    } else if |c| <= room {
      var q', rest := Queue(q.contents + c, false), payload[|c|..];
      ChunkGoesIn(lim, q, payload, nonblock);
      var m := FullPayload(lim, q', rest, nonblock);
      if |payload| > room {
        n := m + 1;
        OneMore(m, lim.maxChunk);
        SlicesMeet(q.contents, payload, lim.maxChunk, m * lim.maxChunk);
      }
    } else {
      ChunkStays(lim, q, payload, nonblock);
      SlicesMeet(q.contents, payload, 0, 0);
    }
  }

  lemma OneMore(m: nat, c: nat)
    ensures (m + 1) * c == c + m * c && m * c >= 0
  {
  }

  /** One turn of the payload loop whose chunk fits. */
  lemma ChunkGoesIn(lim: Limits, q: Queue, payload: seq<byte>, nonblock: bool)
    requires lim.Valid() && !q.closed && payload != []
    requires |q.contents| + |Chunk(lim, payload)| <= lim.capacity
    ensures var c := Chunk(lim, payload);
            var q' := Queue(q.contents + c, false);
            && PayloadRun(lim, q, payload, nonblock) == PayloadRun(lim, q', payload[|c|..], nonblock)
            && c == payload[..|c|] && q'.contents + payload[|c|..] == q.contents + payload
  {
    hide Chunk;
    var c := Chunk(lim, payload);
    assert WriteOutcomeOf(lim, q, c, nonblock) == WriteDone(|c|);
    assert AfterWrite(lim, q, c, WriteDone(|c|)) == Queue(q.contents + c, false);
  }

  /** One whose chunk does not fit. */
  lemma ChunkStays(lim: Limits, q: Queue, payload: seq<byte>, nonblock: bool)
    requires lim.Valid() && !q.closed && payload != [] && lim.mode != Drop
    requires |q.contents| + |Chunk(lim, payload)| > lim.capacity
    ensures PayloadRun(lim, q, payload, nonblock)
         == PayloadEnd(q, payload, if lim.mode == Error then WriteNoSpace
                                   else if nonblock then WriteEagain else WriteParked)
  {
    hide Chunk;
  }

  lemma NothingGoesIn(lim: Limits, q: Queue, payload: seq<byte>, nonblock: bool)
    requires lim.Valid() && payload == [] && !q.closed
    ensures PayloadRun(lim, q, payload, nonblock)
         == PayloadEnd(Queue(q.contents + payload, false), [], WriteDone(0))
  {
    assert q.contents + payload == q.contents;
  }

  lemma SlicesMeet(s: seq<byte>, payload: seq<byte>, j: nat, k: nat)
    requires j + k <= |payload|
    ensures s + payload[..j] + payload[j..][..k] == s + payload[..j + k]
    ensures payload[j..][k..] == payload[j + k..]
  {
  }

  /** Once the stream is closed a payload is refused as a whole. */
  lemma ClosedPayload(lim: Limits, q: Queue, payload: seq<byte>, nonblock: bool)
    requires lim.Valid() && q.closed
    ensures PayloadRun(lim, q, payload, nonblock)
         == PayloadEnd(q, payload, if payload == [] then WriteDone(0) else WritePipe)
  {
  }

  /** So two streams that differ only in chunk size end up alike. */
  lemma DropIgnoresChunkSize(lim: Limits, chunk: nat, q: Queue, payload: seq<byte>, nonblock: bool)
    requires lim.Valid() && chunk > 0 && lim.mode == Drop && !q.closed && |q.contents| <= lim.capacity
    ensures PayloadRun(lim, q, payload, nonblock) == PayloadRun(lim.(maxChunk := chunk), q, payload, nonblock)
  {
    DropPayload(lim, q, payload, nonblock);
    DropPayload(lim.(maxChunk := chunk), q, payload, nonblock);
  }
}
