/** Splitting a model file into cacheable chunks and putting it together again from
    concurrent downloads (tools/vast/cdn_mirror.py, tools/vast/cdn_pull.py). */
module CdnChunks {
  import opened Money

  newtype Byte = x: int | 0 <= x < 256

  // ---- the split ---------------------------------------------------------------

  /** `[(off, min(off + chunk, size) - 1) for off in range(off, size, chunk)]`. */
  function Ranges(off: nat, size: nat, chunk: nat): seq<(int, int)>
    requires chunk > 0
    decreases if off < size then size - off else 0
  {
    if off >= size then []
    else [(off, (if off + chunk < size then off + chunk else size) - 1)] + Ranges(off + chunk, size, chunk)
  }

  /** Inclusive byte ranges; None is the error of a `range` with step zero. */
  function PlanChunks(size: nat, chunk: int): Option<seq<(int, int)>> {
    if size <= chunk then Some([(0, size - 1)])
    else if chunk == 0 then None
    else if chunk < 0 then Some([])
    else Some(Ranges(0, size, chunk))
  }

  /** One entry of the manifest; the hash is absent for large uploads. */
  datatype Part = Part(offset: int, length: int, sha1: Option<int>) {
    function End(): int { offset + length }
  }

  function Manifest(ranges: seq<(int, int)>, sha1s: nat -> Option<int>): (parts: seq<Part>) {
    seq(|ranges|, i requires 0 <= i < |ranges| => Part(ranges[i].0, ranges[i].1 - ranges[i].0 + 1, sha1s(i)))
  }

  predicate In(q: int, p: Part) { p.offset <= q < p.End() }

  predicate Covered(q: int, parts: seq<Part>) { exists i :: 0 <= i < |parts| && In(q, parts[i]) }

  predicate Within(p: Part, size: nat) { 0 <= p.offset <= p.End() <= size }

  /** Parts in file order, inside the file, not overlapping, leaving no byte out. */
  predicate Tiles(parts: seq<Part>, size: nat) {
    && (forall i :: 0 <= i < |parts| ==> Within(parts[i], size))
    && (forall i, j :: 0 <= i < j < |parts| ==> parts[i].End() <= parts[j].offset)
    && (forall q :: 0 <= q < size ==> Covered(q, parts))
  }

  function Place(off: nat, chunk: nat, i: int): int { off + i * chunk }

  lemma PlaceFromNext(off: nat, chunk: nat, i: int)
    ensures Place(off + chunk, chunk, i) == Place(off, chunk, i + 1)
    ensures Place(off, chunk, 0) == off && Place(off, chunk, i + 1) == Place(off, chunk, i) + chunk
  {
  }

  lemma PlaceMonotone(off: nat, chunk: nat, i: int, j: int)
    requires i <= j
    ensures Place(off, chunk, i) <= Place(off, chunk, j)
  {
    assert (j - i) * chunk >= 0;
  }

  /** The `i`-th range starts `i` chunks in, and is a whole chunk unless the file ends. */
  lemma {:induction false} RangesAt(off: nat, size: nat, chunk: nat)
    requires chunk > 0 && off < size
    ensures var r := Ranges(off, size, chunk);
            && r != [] && Place(off, chunk, |r| - 1) < size <= Place(off, chunk, |r|)
            && forall i :: 0 <= i < |r| ==>
                 r[i] == (Place(off, chunk, i), (if i < |r| - 1 then Place(off, chunk, i + 1) else size) - 1)
    decreases size - off
  {
    hide Place;
    var r, rest := Ranges(off, size, chunk), Ranges(off + chunk, size, chunk);
    PlaceFromNext(off, chunk, 0);
    if off + chunk < size {
      RangesAt(off + chunk, size, chunk);
      PlaceFromNext(off, chunk, |rest| - 1);
      PlaceFromNext(off, chunk, |rest|);
      forall i | 0 <= i < |r|
        ensures r[i] == (Place(off, chunk, i), (if i < |r| - 1 then Place(off, chunk, i + 1) else size) - 1)
      {
        if i > 0 {
          assert r[i] == rest[i - 1];
          PlaceFromNext(off, chunk, i - 1);
          PlaceFromNext(off, chunk, i);
        }
      }
    } else {
      assert rest == [];
      assert r == [(off, size - 1)];
    }
  }

  /** Under a positive chunk size, and for the empty file under any, the manifest
      tiles the file; otherwise it never does. */
  lemma ManifestTilesExactly(size: nat, chunk: int, sha1s: nat -> Option<int>)
    ensures (PlanChunks(size, chunk).Some? && Tiles(Manifest(PlanChunks(size, chunk).value, sha1s), size))
            <==> chunk > 0 || size == 0
  {
    if chunk > 0 && size > chunk {
      SplitTiles(size, chunk, sha1s);
    } else if size <= chunk {
      var parts := Manifest(PlanChunks(size, chunk).value, sha1s);
      assert parts[0].offset == 0 && parts[0].End() == size;
      assert forall q :: 0 <= q < size ==> In(q, parts[0]) && Covered(q, parts);
    } else if size > 0 && chunk < 0 {
      assert !Covered(0, []);
    }
  }

  lemma SplitTiles(size: nat, chunk: nat, sha1s: nat -> Option<int>)
    requires 0 < chunk < size
    ensures Tiles(Manifest(Ranges(0, size, chunk), sha1s), size)
  {
    hide Place;
    var r := Ranges(0, size, chunk);
    var parts := Manifest(r, sha1s);
    RangesAt(0, size, chunk);
    forall i | 0 <= i < |parts|
      ensures parts[i].offset == Place(0, chunk, i) && Within(parts[i], size)
      ensures parts[i].End() == if i < |r| - 1 then Place(0, chunk, i + 1) else size
    {
      PlaceMonotone(0, chunk, 0, i);
      PlaceFromNext(0, chunk, 0);
      PlaceFromNext(0, chunk, i);
      PlaceMonotone(0, chunk, i + 1, if i < |r| - 1 then |r| - 1 else i + 1);
      PlaceMonotone(0, chunk, i, |r| - 1);
    }
    forall i, j | 0 <= i < j < |parts| ensures parts[i].End() <= parts[j].offset {
      PlaceMonotone(0, chunk, i + 1, j);
    }
    forall q | 0 <= q < size ensures Covered(q, parts) {
      var i := Covering(chunk, q, |parts|);
      PlaceMonotone(0, chunk, i + 1, |parts|);
      assert In(q, parts[i]);
    }
  }

  lemma {:induction false} Covering(chunk: nat, q: nat, n: nat) returns (i: nat)
    requires q < Place(0, chunk, n)
    ensures i < n && Place(0, chunk, i) <= q < Place(0, chunk, i + 1)
  {
    if q >= Place(0, chunk, n - 1) {
      i := n - 1;
    } else {
      i := Covering(chunk, q, n - 1);
    }
  }

  /** No chunk exceeds the cacheable size, and only the last may fall short of it. */
  lemma ChunksAreFull(size: nat, chunk: nat, sha1s: nat -> Option<int>, i: nat)
    requires 0 < chunk
    requires i < |Manifest(PlanChunks(size, chunk).value, sha1s)|
    ensures var parts := Manifest(PlanChunks(size, chunk).value, sha1s);
            && parts[i].length <= chunk
            && (i < |parts| - 1 ==> parts[i].length == chunk)
            && (size > 0 ==> parts[i].length > 0)
  {
    if size > chunk {
      hide Place;
      var n := |Ranges(0, size, chunk)|;
      RangesAt(0, size, chunk);
      PlaceFromNext(0, chunk, i);
      PlaceFromNext(0, chunk, n - 1);
      PlaceMonotone(0, chunk, i, n - 1);
    }
  }

  // ---- one file, many downloads --------------------------------------------------

  function ByteAfter(file: seq<Byte>, pos: nat, buf: seq<Byte>, q: nat): Byte {
    if pos <= q < pos + |buf| then buf[q - pos] else if q < |file| then file[q] else 0
  }

  /** A positioned write: it overwrites, and past the end it extends. */
  function WriteAt(file: seq<Byte>, pos: nat, buf: seq<Byte>): seq<Byte> {
    if buf == [] then file
    else
      var size := if pos + |buf| > |file| then pos + |buf| else |file|;
      seq(size, q requires 0 <= q < size => ByteAfter(file, pos, buf, q))
  }

  /** A finished read counts when its length, and its hash if there is one, match. */
  predicate Accepted(p: Part, seen: seq<Byte>, sha: seq<Byte> -> int) {
    |seen| == p.length && (p.sha1.Some? ==> sha(seen) == p.sha1.value)
  }

  datatype Phase = Idle | Reading(seen: seq<Byte>) | Done | Failed

  /** A worker's download: the attempts that have failed, and where it stands. */
  datatype Worker = Worker(attempts: nat, phase: Phase)

  datatype Pull = Pull(file: seq<Byte>, workers: seq<Worker>)

  /** What the threads do to the shared file, in the order it happens: a worker opens
      its URL, writes one buffer, or reaches the end of a response, `clean` unless the
      transport broke. */
  datatype Event = Open(i: nat) | Data(i: nat, buf: seq<Byte>) | Close(i: nat, clean: bool)

  /** What the pull is run with. */
  datatype Setup = Setup(parts: seq<Part>, retries: nat, sha: seq<Byte> -> int)

  function Start(c: Setup, size: nat): Pull {
    Pull(seq(size, _ => 0), seq(|c.parts|, _ => Worker(0, Idle)))
  }

  predicate Shaped(c: Setup, s: Pull) {
    |s.workers| == |c.parts| && forall i :: 0 <= i < |c.parts| ==> c.parts[i].offset >= 0
  }

  /** An event a worker is in no state to perform changes nothing. */
  function Step(c: Setup, s: Pull, e: Event): Pull
    requires Shaped(c, s)
  {
    if e.i >= |s.workers| then s
    else
      var w, p := s.workers[e.i], c.parts[e.i];
      match e
      case Open(i) =>
        if !w.phase.Idle? then s
        else s.(workers := s.workers[i := w.(phase := if w.attempts < c.retries then Reading([]) else Failed)])
      case Data(i, buf) =>
        if !w.phase.Reading? then s
        else Pull(WriteAt(s.file, p.offset + |w.phase.seen|, buf),
                  s.workers[i := w.(phase := Reading(w.phase.seen + buf))])
      case Close(i, clean) =>
        if !w.phase.Reading? then s
        else if clean && Accepted(p, w.phase.seen, c.sha) then s.(workers := s.workers[i := w.(phase := Done)])
        else s.(workers := s.workers[i := Worker(w.attempts + 1, if w.attempts + 1 < c.retries then Idle else Failed)])
  }

  function Run(c: Setup, s: Pull, events: seq<Event>): (t: Pull)
    requires Shaped(c, s)
    ensures Shaped(c, t)
    decreases events
  {
    if events == [] then s else Run(c, Step(c, s, events[0]), events[1..])
  }

  /** Every part verified and none in error: the tool reports success. */
  predicate Complete(s: Pull) { forall i :: 0 <= i < |s.workers| ==> s.workers[i].phase.Done? }

  function Slice(src: seq<Byte>, p: Part): seq<Byte>
    requires Within(p, |src|)
  {
    src[p.offset..p.End()]
  }

  /** What the pull needs of the servers. A buffer that runs past its part's end
      repeats the source there, and a read that is accepted was the right one. */
  predicate Honest(c: Setup, src: seq<Byte>, s: Pull, e: Event)
    requires Shaped(c, s) && Tiles(c.parts, |src|)
  {
    e.i < |s.workers| && s.workers[e.i].phase.Reading? ==>
      var p, seen := c.parts[e.i], s.workers[e.i].phase.seen;
      match e
      case Open(_) => true
      case Data(_, buf) =>
        forall q :: 0 <= q < |buf| && p.offset + |seen| + q >= p.End() ==> Agrees(src, p.offset + |seen| + q, buf[q])
      case Close(_, clean) => clean && Accepted(p, seen, c.sha) ==> seen == Slice(src, p)
  }

  predicate Agrees(src: seq<Byte>, q: nat, b: Byte) { q < |src| && src[q] == b }

  predicate HonestRun(c: Setup, src: seq<Byte>, s: Pull, events: seq<Event>)
    requires Shaped(c, s) && Tiles(c.parts, |src|)
    decreases events
  {
    events == [] || (Honest(c, src, s, events[0]) && HonestRun(c, src, Step(c, s, events[0]), events[1..]))
  }

  /** A finished part holds the source; an unfinished one holds, wherever it has
      written, what it read or the source. */
  ghost predicate Sound(c: Setup, src: seq<Byte>, s: Pull)
    requires Tiles(c.parts, |src|)
  {
    && Shaped(c, s) && |s.file| == |src|
    && forall i, q :: 0 <= i < |c.parts| && In(q, c.parts[i]) ==> Holds(c.parts[i], src, s.file, s.workers[i].phase, q)
  }

  predicate Holds(p: Part, src: seq<Byte>, file: seq<Byte>, phase: Phase, q: int)
    requires In(q, p) && Within(p, |src|) && |file| == |src|
  {
    match phase
    case Done => file[q] == src[q]
    case Reading(seen) => q < p.offset + |seen| ==> file[q] == src[q] || file[q] == seen[q - p.offset]
    case _ => true
  }

  lemma StepIsSound(c: Setup, src: seq<Byte>, s: Pull, e: Event)
    requires Tiles(c.parts, |src|) && Sound(c, src, s) && Honest(c, src, s, e)
    ensures Sound(c, src, Step(c, s, e))
  {
    if e.i < |s.workers| && s.workers[e.i].phase.Reading? && e.Data? {
      DataIsSound(c, src, s, e);
    } else {
      var t := Step(c, s, e);
      forall i, q | 0 <= i < |c.parts| && In(q, c.parts[i])
        ensures Holds(c.parts[i], src, t.file, t.workers[i].phase, q)
      {
        assert Holds(c.parts[i], src, s.file, s.workers[i].phase, q);
      }
    }
  }

  lemma DataIsSound(c: Setup, src: seq<Byte>, s: Pull, e: Event)
    requires Tiles(c.parts, |src|) && Sound(c, src, s) && Honest(c, src, s, e)
    requires e.Data? && e.i < |s.workers| && s.workers[e.i].phase.Reading?
    ensures Sound(c, src, Step(c, s, e))
  {
    var t, p, seen := Step(c, s, e), c.parts[e.i], s.workers[e.i].phase.seen;
    var pos := p.offset + |seen|;
    var last := |e.buf| - 1;
    assert last >= 0 && pos + last >= p.End() ==> Agrees(src, pos + last, e.buf[last]);
    forall i, q | 0 <= i < |c.parts| && In(q, c.parts[i])
      ensures Holds(c.parts[i], src, t.file, t.workers[i].phase, q)
    {
      assert Holds(c.parts[i], src, s.file, s.workers[i].phase, q);
      if i != e.i && pos <= q < pos + |e.buf| {
        assert Agrees(src, pos + (q - pos), e.buf[q - pos]) by { assert q >= p.End(); }
      }
    }
  }

  lemma {:induction false} RunIsSound(c: Setup, src: seq<Byte>, s: Pull, events: seq<Event>)
    requires Tiles(c.parts, |src|) && Sound(c, src, s) && HonestRun(c, src, s, events)
    ensures Sound(c, src, Run(c, s, events))
    decreases events
  {
    hide Holds, Honest;
    if events != [] {
      StepIsSound(c, src, s, events[0]);
      RunIsSound(c, src, Step(c, s, events[0]), events[1..]);
    }
  }

  lemma StartIsSound(c: Setup, src: seq<Byte>)
    requires Tiles(c.parts, |src|)
    ensures Sound(c, src, Start(c, |src|))
  {
  }

  /** Whatever the order of opens, buffers and retries, a pull that reports success
      has put the source back together, byte for byte. */
  lemma PullIsExact(c: Setup, src: seq<Byte>, events: seq<Event>)
    requires Tiles(c.parts, |src|) && HonestRun(c, src, Start(c, |src|), events)
    requires Complete(Run(c, Start(c, |src|), events))
    ensures Run(c, Start(c, |src|), events).file == src
  {
    hide HonestRun, Run;
    var t := Run(c, Start(c, |src|), events);
    StartIsSound(c, src);
    RunIsSound(c, src, Start(c, |src|), events);
    forall q | 0 <= q < |src| ensures t.file[q] == src[q] {
      assert Covered(q, c.parts);
      var i :| 0 <= i < |c.parts| && In(q, c.parts[i]);
      assert Holds(c.parts[i], src, t.file, t.workers[i].phase, q);
    }
  }

  // ---- a response longer than its part ------------------------------------------

  lemma {:induction false} RunAppend(c: Setup, s: Pull, a: seq<Event>, b: seq<Event>)
    requires Shaped(c, s)
    ensures Run(c, s, a + b) == Run(c, Run(c, s, a), b)
    decreases a
  {
    if a == [] {
      assert a + b == b;
    } else {
      assert (a + b)[1..] == a[1..] + b;
      RunAppend(c, Step(c, s, a[0]), a[1..], b);
    }
  }

  /** One attempt at part `i` that is served `bytes` and ends cleanly. */
  function Serve(i: nat, bytes: seq<Byte>): seq<Event> { [Open(i), Data(i, bytes), Close(i, true)] }

  lemma ServeEffect(c: Setup, s: Pull, i: nat, bytes: seq<Byte>)
    requires Shaped(c, s) && i < |c.parts| && s.workers[i].phase == Idle && s.workers[i].attempts < c.retries
    ensures var t, n := Run(c, s, Serve(i, bytes)), s.workers[i].attempts;
            && t.file == WriteAt(s.file, c.parts[i].offset, bytes)
            && t.workers == s.workers[i :=
                 if Accepted(c.parts[i], bytes, c.sha) then Worker(n, Done)
                 else Worker(n + 1, if n + 1 < c.retries then Idle else Failed)]
  {
    hide WriteAt, Accepted;
    var e := Serve(i, bytes);
    var s1 := Step(c, s, e[0]);
    var s2 := Step(c, s1, e[1]);
    assert [] + bytes == bytes;
    assert e[1..] == [e[1], e[2]] && e[1..][1..] == [e[2]] && [e[2]][1..] == [];
    assert Run(c, s, e) == Run(c, s2, [e[2]]) == Step(c, s2, e[2]);
  }

  /** The manifest's hashes are those of the source. */
  predicate Published(c: Setup, src: seq<Byte>)
    requires Tiles(c.parts, |src|)
  {
    forall i :: 0 <= i < |c.parts| ==> Accepted(c.parts[i], Slice(src, c.parts[i]), c.sha)
  }

  function ServeOthers(c: Setup, src: seq<Byte>, but: nat, n: nat): seq<Event>
    requires Tiles(c.parts, |src|) && n <= |c.parts|
  {
    if n == 0 then []
    else if n - 1 == but then ServeOthers(c, src, but, n - 1)
    else ServeOthers(c, src, but, n - 1) + Serve(n - 1, Slice(src, c.parts[n - 1]))
  }

  ghost predicate OthersDone(c: Setup, src: seq<Byte>, but: nat, n: nat, s: Pull)
    requires Tiles(c.parts, |src|) && n <= |c.parts|
  {
    && Shaped(c, s) && |s.file| == |src|
    && (forall i :: 0 <= i < n && i != but ==> s.workers[i].phase.Done?)
    && (forall i :: 0 <= i < |c.parts| && (i >= n || i == but) ==> s.workers[i] == Worker(0, Idle))
    && (forall i, q :: 0 <= i < n && i != but && In(q, c.parts[i]) ==> s.file[q] == src[q])
  }

  lemma {:induction false} ServeOthersEffect(c: Setup, src: seq<Byte>, but: nat, n: nat)
    requires Tiles(c.parts, |src|) && Published(c, src) && n <= |c.parts| && c.retries > 0
    ensures OthersDone(c, src, but, n, Run(c, Start(c, |src|), ServeOthers(c, src, but, n)))
  {
    hide Run, Accepted;
    if n == 0 {
      assert Run(c, Start(c, |src|), []) == Start(c, |src|) by { RunNothing(c, Start(c, |src|)); }
    } else {
      ServeOthersEffect(c, src, but, n - 1);
      if n - 1 != but {
        var s := Run(c, Start(c, |src|), ServeOthers(c, src, but, n - 1));
        var bytes := Slice(src, c.parts[n - 1]);
        RunAppend(c, Start(c, |src|), ServeOthers(c, src, but, n - 1), Serve(n - 1, bytes));
        ServeEffect(c, s, n - 1, bytes);
      }
    }
  }

  lemma RunNothing(c: Setup, s: Pull)
    requires Shaped(c, s)
    ensures Run(c, s, []) == s
  {
  }

  /** Everyone else finishes; part `i` is then served its bytes with `extra` behind
      them, which is rejected for its length, and on the retry its bytes alone. */
  function OverlongThenRight(c: Setup, src: seq<Byte>, i: nat, extra: seq<Byte>): seq<Event>
    requires Tiles(c.parts, |src|) && i < |c.parts|
  {
    var bytes := Slice(src, c.parts[i]);
    ServeOthers(c, src, i, |c.parts|) + (Serve(i, bytes + extra) + Serve(i, bytes))
  }

  /** The length check rejects an overlong response only after it has been written
      over the neighbours, and nothing writes them again: the pull reports success, and
      the file is the source exactly when the excess repeated what follows there. */
  lemma OverlongIsHarmlessExactly(c: Setup, src: seq<Byte>, i: nat, extra: seq<Byte>)
    requires Tiles(c.parts, |src|) && Published(c, src) && c.retries >= 2 && i < |c.parts| && extra != []
    ensures var end := Run(c, Start(c, |src|), OverlongThenRight(c, src, i, extra));
            && Complete(end)
            && (end.file == src <==> forall q :: 0 <= q < |extra| ==> Agrees(src, c.parts[i].End() + q, extra[q]))
  {
    hide Run;
    var p, start := c.parts[i], Start(c, |src|);
    var bytes, others := Slice(src, p), ServeOthers(c, src, i, |c.parts|);
    var s := Run(c, start, others);
    ServeOthersEffect(c, src, i, |c.parts|);
    RunAppend(c, start, others, Serve(i, bytes + extra) + Serve(i, bytes));
    RunAppend(c, s, Serve(i, bytes + extra), Serve(i, bytes));
    ServeEffect(c, s, i, bytes + extra);
    var s1 := Run(c, s, Serve(i, bytes + extra));
    ServeEffect(c, s1, i, bytes);
    assert Accepted(p, bytes, c.sha);
    FileAfterExcess(c, src, i, extra, s.file);
  }

  lemma FileAfterExcess(c: Setup, src: seq<Byte>, i: nat, extra: seq<Byte>, file: seq<Byte>)
    requires Tiles(c.parts, |src|) && i < |c.parts| && extra != [] && |file| == |src|
    requires forall j, q :: 0 <= j < |c.parts| && j != i && In(q, c.parts[j]) ==> file[q] == src[q]
    ensures var p := c.parts[i];
            var after := WriteAt(WriteAt(file, p.offset, Slice(src, p) + extra), p.offset, Slice(src, p));
            after == src <==> forall q :: 0 <= q < |extra| ==> Agrees(src, p.End() + q, extra[q])
  {
    var p := c.parts[i];
    var after := WriteAt(WriteAt(file, p.offset, Slice(src, p) + extra), p.offset, Slice(src, p));
    forall q | 0 <= q < |extra| ensures p.End() + q < |after| && after[p.End() + q] == extra[q] {
    }
    if forall q :: 0 <= q < |extra| ==> Agrees(src, p.End() + q, extra[q]) {
      assert Agrees(src, p.End() + (|extra| - 1), extra[|extra| - 1]);
      assert |after| == |src|;
      forall q | 0 <= q < |src| ensures after[q] == src[q] {
        assert Covered(q, c.parts);
        if p.End() <= q < p.End() + |extra| {
          assert Agrees(src, p.End() + (q - p.End()), extra[q - p.End()]);
        }
      }
    }
  }

  // ---- one worker ------------------------------------------------------------------

  /** One try at a URL: the buffers it delivers, and whether the transport held. */
  datatype Attempt = Attempt(bufs: seq<seq<Byte>>, clean: bool)

  function Joined(bufs: seq<seq<Byte>>): seq<Byte> {
    if bufs == [] then [] else Joined(bufs[..|bufs| - 1]) + bufs[|bufs| - 1]
  }

  predicate Good(p: Part, a: Attempt, sha: seq<Byte> -> int) { a.clean && Accepted(p, Joined(a.bufs), sha) }

  /** The file after `n` attempts at part `p`. */
  function Written(file: seq<Byte>, p: Part, attempts: nat -> Attempt, n: nat): seq<Byte>
    requires p.offset >= 0
  {
    if n == 0 then file else WriteAt(Written(file, p, attempts, n - 1), p.offset, Joined(attempts(n - 1).bufs))
  }

  /** Attempts go on until the first good one, or `retries` of them. */
  predicate StopsAfter(p: Part, attempts: nat -> Attempt, retries: nat, sha: seq<Byte> -> int, n: nat) {
    && n <= retries
    && (forall k :: 0 <= k < n - 1 ==> !Good(p, attempts(k), sha))
    && (n < retries ==> n > 0 && Good(p, attempts(n - 1), sha))
  }

  class LocalFile {
    var data: seq<Byte>

    /** Preallocated, so that every part can be written at its own offset. */
    constructor (size: nat)
      ensures data == seq(size, _ => 0)
    {
      data := seq(size, _ => 0);
    }

    method Write(pos: nat, buf: seq<Byte>)
      modifies this
      ensures data == WriteAt(old(data), pos, buf)
    {
      data := WriteAt(data, pos, buf);
    }

    /** Writes each buffer as it arrives, from `offset` on. */
    method Receive(offset: nat, bufs: seq<seq<Byte>>) returns (seen: seq<Byte>)
      modifies this
      ensures seen == Joined(bufs) && data == WriteAt(old(data), offset, seen)
    {
      hide WriteAt;
      seen := [];
      WriteNothing(data, offset);
      for i := 0 to |bufs|
        invariant seen == Joined(bufs[..i])
        invariant data == WriteAt(old(data), offset, seen)
      {
        assert bufs[..i + 1][..i] == bufs[..i];
        WriteOn(old(data), offset, seen, bufs[i]);
        Write(offset + |seen|, bufs[i]);
        seen := seen + bufs[i];
      }
      assert bufs[..|bufs|] == bufs;
    }

    /** Fetches one part, `attempts(k)` being what the `k`-th try meets. The part's
        bytes count as got only if the last try was good. */
    method FetchOne(p: Part, retries: nat, sha: seq<Byte> -> int, attempts: nat -> Attempt)
      returns (got: Option<nat>, ghost tried: nat)
      requires p.offset >= 0
      modifies this
      ensures StopsAfter(p, attempts, retries, sha, tried)
      ensures data == Written(old(data), p, attempts, tried)
      ensures got.Some? <==> exists k :: 0 <= k < retries && Good(p, attempts(k), sha)
      ensures got.Some? ==> tried > 0 && Good(p, attempts(tried - 1), sha) && got.value == p.length
    {
      hide WriteAt, Joined;
      got, tried := None, 0;
      for attempt := 0 to retries
        invariant data == Written(old(data), p, attempts, attempt)
        invariant forall k :: 0 <= k < attempt ==> !Good(p, attempts(k), sha)
      {
        var a := attempts(attempt);
        var seen := Receive(p.offset, a.bufs);
        if a.clean && Accepted(p, seen, sha) {
          return Some(|seen|), attempt + 1;
        }
        tried := attempt + 1;
      }
      tried := retries;
    }
  }

  /** Consecutive writes are one write. */
  lemma WriteOn(file: seq<Byte>, pos: nat, a: seq<Byte>, b: seq<Byte>)
    ensures WriteAt(WriteAt(file, pos, a), pos + |a|, b) == WriteAt(file, pos, a + b)
  {
    if a == [] {
      assert a + b == b;
    } else if b == [] {
      assert a + b == a;
    } else {
      hide ByteAfter;
      var one := WriteAt(file, pos, a);
      var two, both := WriteAt(one, pos + |a|, b), WriteAt(file, pos, a + b);
      assert |two| == |both|;
      forall q | 0 <= q < |both| ensures two[q] == both[q] {
        WriteOnAt(file, pos, a, b, q);
      }
    }
  }

  lemma WriteOnAt(file: seq<Byte>, pos: nat, a: seq<Byte>, b: seq<Byte>, q: nat)
    requires a != []
    ensures ByteAfter(WriteAt(file, pos, a), pos + |a|, b, q) == ByteAfter(file, pos, a + b, q)
  {
  }

  /** A good last try leaves the part's range holding exactly what was verified, and
      when no try ran long every other byte of the file is untouched. */
  lemma {:induction false} FetchStaysInItsPart(file: seq<Byte>, p: Part, attempts: nat -> Attempt, n: nat)
    requires Within(p, |file|) && n > 0
    requires forall k :: 0 <= k < n ==> |Joined(attempts(k).bufs)| <= p.length
    ensures var after := Written(file, p, attempts, n);
            && |after| == |file|
            && (forall q :: 0 <= q < |file| && !In(q, p) ==> after[q] == file[q])
            && (|Joined(attempts(n - 1).bufs)| == p.length ==> after[p.offset..p.End()] == Joined(attempts(n - 1).bufs))
  {
    hide Joined;
    if n > 1 {
      FetchStaysInItsPart(file, p, attempts, n - 1);
    } else {
      assert Written(file, p, attempts, 0) == file;
    }
  }

  function DataEvents(i: nat, bufs: seq<seq<Byte>>): seq<Event> { seq(|bufs|, k requires 0 <= k < |bufs| => Data(i, bufs[k])) }

  /** Buffer by buffer is the same as one write per attempt: the worker alone is the
      concurrent machine with one worker moving. */
  lemma {:induction false} BuffersAreOneWrite(c: Setup, s: Pull, i: nat, bufs: seq<seq<Byte>>)
    requires Shaped(c, s) && i < |c.parts| && s.workers[i].phase.Reading?
    ensures var w, t := s.workers[i], Run(c, s, DataEvents(i, bufs));
            && t.file == WriteAt(s.file, c.parts[i].offset + |w.phase.seen|, Joined(bufs))
            && t.workers == s.workers[i := w.(phase := Reading(w.phase.seen + Joined(bufs)))]
  {
    hide WriteAt;
    var seen := s.workers[i].phase.seen;
    if bufs == [] {
      assert seen + [] == seen && WriteAt(s.file, c.parts[i].offset + |seen|, []) == s.file by { WriteNothing(s.file, c.parts[i].offset + |seen|); }
    } else {
      var n := |bufs| - 1;
      BuffersAreOneWrite(c, s, i, bufs[..n]);
      assert DataEvents(i, bufs) == DataEvents(i, bufs[..n]) + [Data(i, bufs[n])];
      RunAppend(c, s, DataEvents(i, bufs[..n]), [Data(i, bufs[n])]);
      WriteOn(s.file, c.parts[i].offset + |seen|, Joined(bufs[..n]), bufs[n]);
      assert seen + Joined(bufs[..n]) + bufs[n] == seen + Joined(bufs);
    }
  }

  lemma WriteNothing(file: seq<Byte>, pos: nat)
    ensures WriteAt(file, pos, []) == file
  {
  }

  /** What one try does to the shared file and its worker, in order. */
  function AttemptEvents(i: nat, a: Attempt): seq<Event> { [Open(i)] + DataEvents(i, a.bufs) + [Close(i, a.clean)] }

  lemma AttemptEffect(c: Setup, s: Pull, i: nat, a: Attempt)
    requires Shaped(c, s) && i < |c.parts| && s.workers[i].phase == Idle && s.workers[i].attempts < c.retries
    ensures var t, n := Run(c, s, AttemptEvents(i, a)), s.workers[i].attempts;
            && t.file == WriteAt(s.file, c.parts[i].offset, Joined(a.bufs))
            && t.workers == s.workers[i :=
                 if Good(c.parts[i], a, c.sha) then Worker(n, Done)
                 else Worker(n + 1, if n + 1 < c.retries then Idle else Failed)]
  {
    hide WriteAt, Accepted, Joined;
    var s1 := Step(c, s, Open(i));
    RunOne(c, s, Open(i));
    RunAppend(c, s, [Open(i)], DataEvents(i, a.bufs));
    BuffersAreOneWrite(c, s1, i, a.bufs);
    assert [] + Joined(a.bufs) == Joined(a.bufs);
    var s2 := Run(c, s1, DataEvents(i, a.bufs));
    RunAppend(c, s, [Open(i)] + DataEvents(i, a.bufs), [Close(i, a.clean)]);
    RunOne(c, s2, Close(i, a.clean));
  }

  lemma RunOne(c: Setup, s: Pull, e: Event)
    requires Shaped(c, s)
    ensures Run(c, s, [e]) == Step(c, s, e)
  {
    assert [e][1..] == [];
  }

  /** A worker's whole fetch: its first `n` tries. */
  function FetchEvents(i: nat, attempts: nat -> Attempt, n: nat): seq<Event> {
    if n == 0 then [] else FetchEvents(i, attempts, n - 1) + AttemptEvents(i, attempts(n - 1))
  }

  lemma {:induction false} BadTries(c: Setup, s: Pull, i: nat, attempts: nat -> Attempt, n: nat)
    requires Shaped(c, s) && i < |c.parts| && s.workers[i] == Worker(0, Idle) && n < c.retries
    requires forall k :: 0 <= k < n ==> !Good(c.parts[i], attempts(k), c.sha)
    ensures var t := Run(c, s, FetchEvents(i, attempts, n));
            && t.file == Written(s.file, c.parts[i], attempts, n)
            && t.workers == s.workers[i := Worker(n, Idle)]
  {
    hide WriteAt, Good, Step;
    if n > 0 {
      BadTries(c, s, i, attempts, n - 1);
      var t := Run(c, s, FetchEvents(i, attempts, n - 1));
      RunAppend(c, s, FetchEvents(i, attempts, n - 1), AttemptEvents(i, attempts(n - 1)));
      AttemptEffect(c, t, i, attempts(n - 1));
    }
  }

  /** The sequential fetch is what one worker of the concurrent machine does: the same
      file, done on the first good try and not before, failed exactly when all of the
      tries it is given are bad, and no other worker touched. */
  lemma WorkerIsTheFetch(c: Setup, s: Pull, i: nat, attempts: nat -> Attempt, n: nat)
    requires Shaped(c, s) && i < |c.parts| && s.workers[i] == Worker(0, Idle) && c.retries > 0
    requires StopsAfter(c.parts[i], attempts, c.retries, c.sha, n)
    ensures var t := Run(c, s, FetchEvents(i, attempts, n));
            && t.file == Written(s.file, c.parts[i], attempts, n)
            && |t.workers| == |s.workers|
            && (t.workers[i].phase == Done <==> exists k :: 0 <= k < c.retries && Good(c.parts[i], attempts(k), c.sha))
            && (t.workers[i].phase == Failed <==> forall k :: 0 <= k < c.retries ==> !Good(c.parts[i], attempts(k), c.sha))
            && forall j :: 0 <= j < |s.workers| && j != i ==> t.workers[j] == s.workers[j]
  {
    hide WriteAt, Good, Step;
    BadTries(c, s, i, attempts, n - 1);
    var t := Run(c, s, FetchEvents(i, attempts, n - 1));
    RunAppend(c, s, FetchEvents(i, attempts, n - 1), AttemptEvents(i, attempts(n - 1)));
    AttemptEffect(c, t, i, attempts(n - 1));
  }
}
