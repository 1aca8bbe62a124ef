/** Reading at offsets: through one reader kept open over many reads, or a new one for each. */
module RangedReads {
  import opened Basics
  import opened HttpRange

  /** The gauge follows the response held. */
  twostate predicate Gauged(r: Reader)
    reads r, r.metrics
  {
    r.metrics.openRequests - r.Held() == old(r.metrics.openRequests) - old(r.Held())
  }

  twostate predicate BreakCounted(r: Reader, spoiled: bool)
    reads r.resource
  {
    r.resource.breaks == old(r.resource.breaks) + if spoiled then 1 else 0
  }

  twostate predicate Untouched(r: Reader)
    reads r, r.resource
  {
    r.res == old(r.res) && r.offset == old(r.offset) && r.resource.requests == old(r.resource.requests)
  }

  /** None of a body's reads breaks. */
  ghost predicate Healthy(deliver: nat -> Delivery) { forall k :: !deliver(k).broken }

  /** One more read towards `size` bytes from position `p`. */
  method ReadMore(r: Reader, size: nat, data: seq<Byte>, ghost p: int, reply: Reply, d: Delivery)
    returns (data': seq<Byte>, err: Option<Error>)
    requires r.Valid() && |data| < size && r.Position() == p + |data|
    requires data != [] ==> r.res.Some? && r.DataAt(p, data)
    modifies r`res, r`offset, r.resource`err, r.resource`requests, r.resource`breaks, r.metrics`openRequests
    ensures r.Valid()
    ensures !old(r.Opens(reply)) ==>
              data' == data && err == Some(old(r.Denial(reply))) && r.offset == old(r.offset) && r.res == None
    ensures old(r.Opens(reply)) ==>
              && |data'| == |data| + Count(d, size - |data|, old(r.Left(reply)))
              && err == Ending(d, |data'| - |data|, old(r.Left(reply)))
              && r.DataAt(p, data')
              && r.res == Some(Body(p + |data'|, old(r.Stop(reply))))
              && r.offset == old(r.offset) + if d.broken then 0 else |data'| - |data|
    ensures old(r.Aligned()) ==> (r.Aligned() <==> !old(r.Breaks(size - |data|, reply, d)))
    ensures BreakCounted(r, old(r.Breaks(size - |data|, reply, d))) && Gauged(r)
    ensures r.resource.requests == old(r.resource.requests) + if old(r.res.None? && r.InSection()) then 1 else 0
  {
    var more;
    more, err := r.Read(size - |data|, reply, d);
    data' := data + more;
    if data == [] {
      assert data' == more;
    } else if more == [] {
      assert data' == data;
    } else {
      DataExtends(r, p, data, more);
    }
  }

  lemma DataExtends(r: Reader, p: int, data: seq<Byte>, more: seq<Byte>)
    requires r.DataAt(p, data) && r.DataAt(p + |data|, more)
    ensures r.DataAt(p, data + more)
  {
  }

  /** What the standard library's full read reports of a body that ends after `n` of `size` bytes. */
  function Short(n: nat): Error { if n == 0 then EndOfFile else UnexpectedEndOfFile }

  /**
   The standard library's full read: all `size` bytes, or an error.  A body that does not break
   gives all it has; `spoiled` says that it broke while delivering something, which is when reader
   and response part.
   */
  method ReadFull(r: Reader, size: nat, reply: Reply, deliver: nat -> Delivery)
    returns (data: seq<Byte>, err: Option<Error>, ghost spoiled: bool)
    requires r.Valid()
    modifies r`res, r`offset, r.resource`err, r.resource`requests, r.resource`breaks, r.metrics`openRequests
    ensures r.Valid() && |data| <= size && (err.None? <==> |data| == size)
    ensures size == 0 ==> Untouched(r)
    ensures size > 0 && !old(r.Opens(reply)) ==>
              data == [] && err == Some(old(r.Denial(reply))) && r.res == None && r.offset == old(r.offset)
    ensures size > 0 && old(r.Opens(reply)) ==>
              && |data| <= old(r.Left(reply)) && r.DataAt(old(r.Position()), data)
              && r.res == Some(Body(old(r.Position()) + |data|, old(r.Stop(reply))))
              && (err.None? || err == Some(BodyError) || (|data| == old(r.Left(reply)) && err == Some(Short(|data|))))
    ensures Healthy(deliver) ==> err != Some(BodyError) && !spoiled
    ensures !spoiled ==> r.offset == old(r.offset) + |data|
    ensures old(r.Aligned()) ==> (r.Aligned() <==> !spoiled)
    ensures BreakCounted(r, spoiled) && Gauged(r)
    ensures
      var asks := size > 0 && old(r.res.None? && r.InSection());
      r.resource.requests == old(r.resource.requests) + if asks then 1 else 0
  {
    data, err, spoiled := [], None, false;
    var k := 0;
    ghost var p := r.Position();
    while |data| < size
      invariant r.Valid() && |data| <= size && err.None? && !spoiled
      invariant if data == [] then Untouched(r) else old(r.Opens(reply)) && r.DataAt(p, data)
      invariant data != [] ==> r.res == Some(Body(p + |data|, old(r.Stop(reply))))
      invariant data != [] ==> |data| <= old(r.Left(reply))
      invariant r.Position() == p + |data| && r.offset == old(r.offset) + |data|
      invariant old(r.Aligned()) ==> r.Aligned()
      invariant BreakCounted(r, false) && Gauged(r)
      invariant data != [] ==>
                  r.resource.requests == old(r.resource.requests) + if old(r.res.None? && r.InSection()) then 1 else 0
    {
      ghost var breaks := r.Breaks(size - |data|, reply, deliver(k));
      data, err := ReadMore(r, size, data, p, reply, deliver(k));
      spoiled := breaks;
      if err.Some? {
        break;
      }
      k := k + 1;
    }
    if |data| == size {
      err := None;
    } else if data != [] && err == Some(EndOfFile) {
      err := Some(UnexpectedEndOfFile);
    }
  }

  datatype Request = Request(off: int, size: nat)
  datatype Result = Result(data: seq<Byte>, err: Option<Error>)

  predicate InRange(content: seq<Byte>, q: Request) {
    0 <= q.off && q.off + q.size <= |content|
  }

  /**
   A read of what was asked for: the resource's own bytes, and of bytes that exist nothing else
   than an error of the server's making.  `held` says that no reply was needed.
   */
  ghost predicate Correct(res: Resource, q: Request, held: bool, reply: Reply, deliver: nat -> Delivery, a: Result) {
    && (a.err.None? && q.size > 0 ==> InRange(res.content, q) && a.data == res.content[q.off..q.off + q.size])
    && (InRange(res.content, q) ==>
          if q.size == 0 then a.err.None?
          else if held || Acceptable(res.etag, q.off, reply) then
            a.err.None? || (a.err == Some(BodyError) && !Healthy(deliver))
          else a.err == Some(Refusal(reply)))
  }

  ghost predicate Answered(res: Resource, q: Request, reply: Reply, deliver: nat -> Delivery, a: Result) {
    Correct(res, q, true, reply, deliver, a) || Correct(res, q, false, reply, deliver, a)
  }

  class RangedReader {
    const resource: Resource
    const metrics: Metrics
    var cachedReader: Reader?

    constructor (resource: Resource, metrics: Metrics)
      ensures this.resource == resource && this.metrics == metrics && cachedReader == null
    {
      this.resource, this.metrics, cachedReader := resource, metrics, null;
    }

    ghost predicate Covers(r: Reader)
      reads r
    {
      && r.Valid() && r.resource == resource && r.metrics == metrics
      && r.rangeStart == 0 && r.rangeSize == |resource.content|
    }

    /** A read at `off` through `r` needs no request. */
    ghost predicate Holds(r: Reader, off: int)
      reads r
    {
      r.res.Some? && r.offset == off
    }

    /** Where a read at `off` through `r` starts: at `off`, unless `r` stands there with a stray response. */
    ghost function From(r: Reader, off: int): int
      reads r
    {
      if Holds(r, off) then r.res.value.next else off
    }

    method CachedRead(r: Reader, q: Request, reply: Reply, deliver: nat -> Delivery)
      returns (a: Result, ghost spoiled: bool)
      requires Covers(r)
      modifies r`res, r`offset, resource`err, resource`requests, resource`breaks, metrics`openRequests
      ensures Covers(r)
      // whatever the response held, the read is one of the bytes from where it stands
      ensures
        && q.size > 0 && 0 <= q.off <= |resource.content|
        && (old(Holds(r, q.off)) || Acceptable(resource.etag, q.off, reply)) ==>
          Correct(resource, Request(old(From(r, q.off)), q.size), true, reply, deliver, a)
      ensures old(r.Aligned()) ==> Correct(resource, q, old(Holds(r, q.off)), reply, deliver, a)
      ensures old(r.Aligned()) ==> (r.Aligned() <==> !spoiled)
      ensures Healthy(deliver) ==> !spoiled
      ensures a.err.None? && q.size > 0 ==> r.res.Some? && (!spoiled ==> r.offset == q.off + q.size)
      ensures
        var asks := q.size > 0 && 0 <= q.off < |resource.content| && !old(Holds(r, q.off));
        resource.requests == old(resource.requests) + if asks then 1 else 0
      ensures BreakCounted(r, spoiled) && Gauged(r)
    {
      var _, err := r.Seek(q.off, FromStart);
      if err.Some? {
        return Result([], err), false;
      }
      var data;
      data, err, spoiled := ReadFull(r, q.size, reply, deliver);
      a := Result(data, err);
    }

    method EphemeralRead(q: Request, reply: Reply, deliver: nat -> Delivery) returns (a: Result)
      modifies resource`err, resource`requests, resource`breaks, metrics`openRequests
      ensures Correct(resource, q, false, reply, deliver, a)
      ensures q.size > 0 && !InRange(resource.content, q) ==> a.err == Some(InvalidRange)
      ensures
        var asks := q.size > 0 && InRange(resource.content, q);
        resource.requests == old(resource.requests) + if asks then 1 else 0
      ensures metrics.openRequests == old(metrics.openRequests)
    {
      var r := new Reader(resource, metrics, q.off, q.size);
      var data, err, _ := ReadFull(r, q.size, reply, deliver);
      r.Close();
      a := Result(data, err);
    }

    /** Either way of reading gives the same bytes. */
    method ReadAt(q: Request, reply: Reply, deliver: nat -> Delivery) returns (a: Result, ghost spoiled: bool)
      requires cachedReader != null ==> Covers(cachedReader)
      modifies if cachedReader != null then {cachedReader} else {}
      modifies resource`err, resource`requests, resource`breaks, metrics`openRequests
      ensures cachedReader == null ==> Correct(resource, q, false, reply, deliver, a)
      ensures cachedReader == null ==> metrics.openRequests == old(metrics.openRequests)
      ensures cachedReader != null ==> Covers(cachedReader)
      ensures cachedReader != null ==> BreakCounted(cachedReader, spoiled) && Gauged(cachedReader)
      ensures cachedReader != null && old(cachedReader.Aligned()) ==>
                && Correct(resource, q, old(Holds(cachedReader, q.off)), reply, deliver, a)
                && (cachedReader.Aligned() <==> !spoiled)
      ensures Healthy(deliver) ==> !spoiled
      ensures cachedReader != null && a.err.None? && q.size > 0 ==>
                cachedReader.res.Some? && (!spoiled ==> cachedReader.offset == q.off + q.size)
      ensures cachedReader != null ==>
                var asks := q.size > 0 && 0 <= q.off < |resource.content| && !old(Holds(cachedReader, q.off));
                resource.requests == old(resource.requests) + if asks then 1 else 0
    {
      if cachedReader != null {
        a, spoiled := CachedRead(cachedReader, q, reply, deliver);
      } else {
        a := EphemeralRead(q, reply, deliver);
        spoiled := false;
      }
    }

    /**
     The callback's reads, in any order and number, through one cached reader.  As long as no body
     breaks while delivering something, each is correct; contiguous reads of bytes that exist all
     succeed if the first reply is acceptable and no body breaks, and cost one request; and no
     response stays open.
     */
    method WithCachedReader(asked: seq<Request>, reply: nat -> Reply, deliver: nat -> nat -> Delivery)
      returns (results: seq<Result>)
      modifies this`cachedReader, resource`err, resource`requests, resource`breaks, metrics`openRequests
      ensures cachedReader == null && metrics.openRequests == old(metrics.openRequests)
      ensures |results| == |asked|
      ensures AllHealthy(|asked|, deliver) ==> resource.breaks == old(resource.breaks)
      ensures resource.breaks == old(resource.breaks) ==> AllAnswered(resource, asked, reply, deliver, results)
      ensures resource.breaks == old(resource.breaks) && Contiguous(asked) && AllSucceed(results) && asked != [] ==>
                resource.requests == old(resource.requests) + 1
      ensures Served(resource, asked, reply, deliver) ==>
                AllSucceed(results) && resource.requests == old(resource.requests) + 1
    {
      var r := new Reader(resource, metrics, 0, |resource.content|);
      cachedReader := r;
      results := [];
      ghost var good := true;  // no failure so far
      ghost var spoiled := false;
      for i := 0 to |asked|
        invariant cachedReader == r && Covers(r) && |results| == i
        invariant !spoiled ==> r.Aligned() && AllAnswered(resource, asked[..i], reply, deliver, results)
        invariant metrics.openRequests - r.Held() == old(metrics.openRequests)
        invariant good <==> AllSucceed(results)
        invariant Served(resource, asked, reply, deliver) ==> good
        invariant AllHealthy(|asked|, deliver) ==> !spoiled
        invariant resource.breaks >= old(resource.breaks) && (spoiled <==> resource.breaks > old(resource.breaks))
        invariant i == 0 ==> resource.requests == old(resource.requests) && r.res == None
        invariant i > 0 && good && !spoiled && Contiguous(asked) ==>
                    && resource.requests == old(resource.requests) + 1
                    && r.res.Some? && r.offset == asked[i - 1].off + asked[i - 1].size
      {
        ghost var bad := spoiled;
        var a;
        assert Contiguous(asked) ==> asked[i].size > 0;
        assert Contiguous(asked) && i > 0 ==> asked[i].off == asked[i - 1].off + asked[i - 1].size;
        a, spoiled := ReadAt(asked[i], reply(i), deliver(i));
        spoiled := spoiled || bad;
        SuccessSnoc(results, a);
        good := good && a.err.None?;
        AnsweredSnoc(resource, asked, i, reply, deliver, results, a);
        results := results + [a];
      }
      assert asked[..|asked|] == asked;
      cachedReader.Close();
      cachedReader := null;
    }
  }

  ghost predicate AllHealthy(n: nat, deliver: nat -> nat -> Delivery) {
    forall i | 0 <= i < n :: Healthy(deliver(i))
  }

  ghost predicate AllAnswered(res: Resource, asked: seq<Request>, reply: nat -> Reply, deliver: nat -> nat -> Delivery,
                              results: seq<Result>) {
    |results| == |asked| && forall i | 0 <= i < |asked| :: Answered(res, asked[i], reply(i), deliver(i), results[i])
  }

  /** Contiguous reads of bytes that exist, from a server that answers the first and breaks no body. */
  ghost predicate Served(res: Resource, asked: seq<Request>, reply: nat -> Reply, deliver: nat -> nat -> Delivery) {
    && asked != [] && Contiguous(asked) && AllHealthy(|asked|, deliver)
    && (forall i | 0 <= i < |asked| :: InRange(res.content, asked[i]))
    && Acceptable(res.etag, asked[0].off, reply(0))
  }

  lemma SuccessSnoc(results: seq<Result>, a: Result)
    ensures AllSucceed(results + [a]) <==> AllSucceed(results) && a.err.None?
  {
    var all := results + [a];
    if AllSucceed(all) {
      assert all[|results|] == a;
      forall i | 0 <= i < |results| ensures results[i].err.None? { assert all[i] == results[i]; }
    }
  }

  lemma AnsweredSnoc(res: Resource, asked: seq<Request>, i: nat, reply: nat -> Reply, deliver: nat -> nat -> Delivery,
                     results: seq<Result>, a: Result)
    requires i < |asked| && |results| == i
    ensures AllAnswered(res, asked[..i], reply, deliver, results)
            && Answered(res, asked[i], reply(i), deliver(i), a) ==>
              AllAnswered(res, asked[..i + 1], reply, deliver, results + [a])
  {
  }

  predicate Contiguous(asked: seq<Request>) {
    && (forall i | 0 <= i < |asked| :: asked[i].size > 0)
    && (forall i | 0 < i < |asked| :: asked[i].off == asked[i - 1].off + asked[i - 1].size)
  }

  predicate AllSucceed(results: seq<Result>) {
    forall i | 0 <= i < |results| :: results[i].err.None?
  }

  /**
   A reader whose body broke after `k` bytes answers the next read at its own offset with the bytes
   `k` further on, whatever they are.
   */
  method StrayRead(resource: Resource, metrics: Metrics, k: nat, size: nat) returns (first: Result, second: Result)
    requires 0 < k && 0 < size && k + size <= |resource.content|
    modifies resource`err, resource`requests, resource`breaks, metrics`openRequests
    ensures first.err == Some(BodyError)
    ensures second == Result(resource.content[k..k + size], None)
    ensures Correct(resource, Request(0, size), true, Status(206, ""), _ => Delivery(size, false, false), second) <==>
            resource.content[k..k + size] == resource.content[..size]
  {
    var reader := new RangedReader(resource, metrics);
    var r := new Reader(resource, metrics, 0, |resource.content|);
    ghost var spoiled;
    var breaking := (i: nat) => Delivery(k, true, false);
    var whole := (i: nat) => Delivery(size, false, false);
    var data, err := r.Read(k, Status(206, ""), breaking(0));
    first := Result(data, err);
    assert reader.From(r, 0) == k;
    second, spoiled := reader.CachedRead(r, Request(0, size), Status(206, ""), whole);
    assert Healthy(whole);
    assert resource.content[0..size] == resource.content[..size];
  }

  // ----- a reader as a plain section of the resource -----

  /** An operation on the `k`-th of some readers. */
  datatype Op =
    | SeekOp(k: nat, delta: int, whence: Whence)
    | ReadOp(k: nat, size: nat, reply: Reply, d: Delivery)
    | CloseOp(k: nat)

  datatype Out = Moved(at: int) | NotMoved | Got(data: seq<Byte>, err: Option<Error>) | Closed

  /** The bytes from `start` to `end` of a resource, held in memory. */
  datatype Section = Section(content: seq<Byte>, etag: string, start: int, end: int)

  function SeekTarget(sec: Section, at: int, delta: int, whence: Whence): int {
    match whence
    case FromStart => sec.start + delta
    case FromCurrent => at + delta
    case FromEnd => sec.end + delta
    case OtherWhence => sec.start - 1
  }

  /** A read that goes on from `at` in a body ending at `stop`. */
  predicate ReadsOn(at: int, stop: int, size: nat, d: Delivery, data: seq<Byte>, err: Option<Error>)
    requires size > 0
  {
    at <= stop && |data| == Count(d, size, stop - at) && err == Ending(d, |data|, stop - at)
  }

  /**
   What an operation does to a section, of which only the offset is state.  A read is served up to
   the end of the section, or of the resource unless `cut`; only outside the section or on an
   unacceptable reply may it be refused instead.
   */
  predicate SectionStep(sec: Section, cut: bool, at: int, op: Op, out: Out, at': int) {
    match op
    case SeekOp(_, delta, whence) =>
      var target := SeekTarget(sec, at, delta, whence);
      if sec.start <= target <= sec.end then out == Moved(target - sec.start) && at' == target
      else out == NotMoved && at' == at
    case ReadOp(_, size, reply, d) =>
      var inside := 0 <= sec.start <= at < sec.end <= |sec.content|;
      && out.Got? && at' == at + |out.data|
      && (out.data != [] ==> 0 <= at && at' <= |sec.content| && out.data == sec.content[at..at'])
      && if size == 0 then out.data == [] && out.err.None?
         else
           || ReadsOn(at, sec.end, size, d, out.data, out.err)
           || (!cut && ReadsOn(at, |sec.content|, size, d, out.data, out.err))
           || (&& !(inside && Acceptable(sec.etag, at, reply)) && out.data == []
               && out.err == Some(if inside then Refusal(reply) else InvalidRange))
    case CloseOp(_) => out == Closed && at' == at
  }

  predicate Partial(op: Op) { op.ReadOp? ==> op.reply.Status? && op.reply.code == 206 }

  predicate AllPartial(ops: seq<Op>) { forall i | 0 <= i < |ops| :: Partial(ops[i]) }

  /** A body broke while delivering something. */
  predicate Broke(out: Out) { out.Got? && out.err == Some(BodyError) && out.data != [] }

  predicate Unbroken(outs: seq<Out>, n: nat)
    requires n <= |outs|
  {
    forall i | 0 <= i < n :: !Broke(outs[i])
  }

  /** A history of the section, up to the first body that broke. */
  ghost predicate History(sec: Section, cut: bool, ops: seq<Op>, outs: seq<Out>, ats: seq<int>) {
    && |outs| <= |ops| && |ats| == |outs| + 1
    && (forall i | 0 <= i < |outs| && Unbroken(outs, i + 1) ::
          SectionStep(sec, cut, ats[i], ops[i], outs[i], ats[i + 1]))
    && (forall i | 0 <= i < |outs| && Broke(outs[i]) :: ops[i].ReadOp? && ops[i].d.broken)
  }

  lemma HistoryGrows(sec: Section, cut: bool, ops: seq<Op>, outs: seq<Out>, ats: seq<int>, out: Out, at: int)
    requires History(sec, cut, ops, outs, ats) && |outs| < |ops|
    requires Unbroken(outs, |outs|) && !Broke(out) ==> SectionStep(sec, cut, ats[|outs|], ops[|outs|], out, at)
    requires Broke(out) ==> ops[|outs|].ReadOp? && ops[|outs|].d.broken
    ensures History(sec, cut, ops, outs + [out], ats + [at])
    ensures Unbroken(outs + [out], |outs| + 1) ==> Unbroken(outs, |outs|) && !Broke(out)
  {
    var all, ats' := outs + [out], ats + [at];
    forall i | 0 <= i < |all| && Unbroken(all, i + 1)
      ensures SectionStep(sec, cut, ats'[i], ops[i], all[i], ats'[i + 1])
    {
      assert !Broke(all[i]);
      assert Unbroken(outs, i) by {
        forall j | 0 <= j < i ensures !Broke(outs[j]) { assert !Broke(all[j]); }
      }
      if i < |outs| {
        assert Unbroken(outs, i + 1);
      }
    }
    if Unbroken(all, |all|) {
      assert !Broke(all[|outs|]);
      forall j | 0 <= j < |outs| ensures !Broke(outs[j]) { assert !Broke(all[j]); }
    }
  }

  ghost function SectionOf(r: Reader): Section {
    Section(r.resource.content, r.resource.etag, r.rangeStart, r.end)
  }

  method ReadAsSection(r: Reader, ghost op: Op, size: nat, reply: Reply, d: Delivery) returns (out: Out)
    requires r.Valid() && op.ReadOp? && op.size == size && op.reply == reply && op.d == d
    modifies r, r.resource, r.metrics
    ensures r.Valid() && (old(r.Aligned()) ==> (r.Aligned() <==> !Broke(out)))
    ensures old(r.Bounded()) && Partial(op) ==> r.Bounded()
    ensures Broke(out) ==> d.broken
    ensures old(r.Aligned()) && !Broke(out) ==>
              SectionStep(SectionOf(r), r.Bounded(), old(r.offset), op, out, r.offset)
  {
    var data, err := r.Read(size, reply, d);
    out := Got(data, err);
  }

  method UseAsSection(r: Reader, op: Op) returns (out: Out)
    requires r.Valid()
    modifies r, r.resource, r.metrics
    ensures r.Valid() && (old(r.Aligned()) ==> (r.Aligned() <==> !Broke(out)))
    ensures old(r.Bounded()) && Partial(op) ==> r.Bounded()
    ensures Broke(out) ==> op.ReadOp? && op.d.broken
    ensures old(r.Aligned()) && !Broke(out) ==>
              SectionStep(SectionOf(r), r.Bounded(), old(r.offset), op, out, r.offset)
  {
    match op {
      case SeekOp(_, delta, whence) =>
        var at, err := r.Seek(delta, whence);
        out := if err.None? then Moved(at) else NotMoved;
      case ReadOp(_, size, reply, d) =>
        out := ReadAsSection(r, op, size, reply, d);
      case CloseOp(_) =>
        r.Close();
        out := Closed;
    }
  }

  lemma CutLess(sec: Section, cut: bool, cut': bool, at: int, op: Op, out: Out, at': int)
    requires cut' ==> cut
    ensures SectionStep(sec, cut, at, op, out, at') ==> SectionStep(sec, cut', at, op, out, at')
  {
  }

  /**
   Any sequence of seeks, reads and closes is one of the plain section, step by step, up to the
   first body that breaks while delivering something; its end is kept if every answer is a 206.
   */
  method UseSection(r: Reader, ops: seq<Op>) returns (outs: seq<Out>, ghost ats: seq<int>)
    requires r.Valid() && r.Aligned() && r.Bounded()
    modifies r, r.resource, r.metrics
    ensures |outs| == |ops| && History(SectionOf(r), AllPartial(ops), ops, outs, ats)
    ensures ats[0] == old(r.offset) && ats[|ops|] == r.offset
  {
    outs, ats := [], [r.offset];
    for n := 0 to |ops|
      invariant |outs| == n && History(SectionOf(r), AllPartial(ops), ops, outs, ats)
      invariant ats[0] == old(r.offset) && ats[n] == r.offset
      invariant r.Valid() && (Unbroken(outs, n) ==> r.Aligned())
      invariant AllPartial(ops) ==> r.Bounded()
    {
      ghost var at := r.offset;
      var out := UseAsSection(r, ops[n]);
      CutLess(SectionOf(r), r.Bounded(), AllPartial(ops), at, ops[n], out, r.offset);
      HistoryGrows(SectionOf(r), AllPartial(ops), ops, outs, ats, out, r.offset);
      outs, ats := outs + [out], ats + [r.offset];
    }
  }

  // ----- many readers, one gauge -----

  function CountOpen(responses: seq<Option<Body>>): nat {
    if responses == [] then 0
    else CountOpen(responses[..|responses| - 1]) + (if responses[|responses| - 1].Some? then 1 else 0)
  }

  lemma {:induction false} CountOpenUpdate(responses: seq<Option<Body>>, k: nat, b: Option<Body>)
    requires k < |responses|
    ensures CountOpen(responses[k := b]) ==
            CountOpen(responses) - (if responses[k].Some? then 1 else 0) + (if b.Some? then 1 else 0)
  {
    var n := |responses| - 1;
    if k == n {
      assert responses[k := b][..n] == responses[..n];
    } else {
      assert responses[k := b][..n] == responses[..n][k := b];
      CountOpenUpdate(responses[..n], k, b);
    }
  }

  ghost function Responses(readers: seq<Reader>): (r: seq<Option<Body>>)
    reads readers
    ensures |r| == |readers| && forall i | 0 <= i < |readers| :: r[i] == readers[i].res
  {
    seq(|readers|, i requires 0 <= i < |readers| reads readers => readers[i].res)
  }

  method UseReader(r: Reader, op: Op)
    requires r.Valid()
    modifies r, r.resource, r.metrics
    ensures r.Valid()
    ensures r.metrics.openRequests - r.Held() == old(r.metrics.openRequests - r.Held())
  {
    match op {
      case SeekOp(_, delta, whence) => var _, _ := r.Seek(delta, whence);
      case ReadOp(_, size, reply, d) => var _, _ := r.Read(size, reply, d);
      case CloseOp(_) => r.Close();
    }
  }

  ghost predicate Apart(readers: seq<Reader>, metrics: Metrics) {
    && (forall i, j | 0 <= i < |readers| && 0 <= j < |readers| && i != j :: readers[i] != readers[j])
    && (forall i | 0 <= i < |readers| :: readers[i].metrics == metrics)
  }

  ghost predicate AllValid(readers: seq<Reader>)
    reads readers
  {
    forall i | 0 <= i < |readers| :: readers[i].Valid()
  }

  /** The gauge is the number of readers holding a response. */
  ghost predicate Tallied(readers: seq<Reader>, metrics: Metrics)
    reads readers, metrics
  {
    AllValid(readers) && metrics.openRequests == CountOpen(Responses(readers))
  }

  method UseOneOf(readers: seq<Reader>, metrics: Metrics, op: Op)
    requires Apart(readers, metrics) && Tallied(readers, metrics)
    requires op.k < |readers|
    modifies readers[op.k], metrics, readers[op.k].resource
    ensures Tallied(readers, metrics)
  {
    ghost var before := Responses(readers);
    UseReader(readers[op.k], op);
    forall i | 0 <= i < |readers| && i != op.k ensures readers[i].Valid() && readers[i].res == before[i] {
      assert readers[i] != readers[op.k] && old(readers[i].Valid());
    }
    CountOpenUpdate(before, op.k, readers[op.k].res);
    assert Responses(readers) == before[op.k := readers[op.k].res];
  }

  /**
   Any sequence of seeks, reads and closes on any number of readers: the gauge is always the
   number of readers holding a response.
   */
  method UseReaders(readers: seq<Reader>, metrics: Metrics, ops: seq<Op>)
    requires Apart(readers, metrics) && Tallied(readers, metrics)
    modifies readers, metrics, set i | 0 <= i < |readers| :: readers[i].resource
    ensures Tallied(readers, metrics)
  {
    for n := 0 to |ops|
      invariant Tallied(readers, metrics)
    {
      var k := ops[n].k;
      if k < |readers| {
        UseOneOf(readers, metrics, ops[n]);
      }
    }
  }
}
