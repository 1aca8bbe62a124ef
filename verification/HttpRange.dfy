/**
 Reading a remote resource through lazily opened range requests.

 The server is one that honours ranges: a 206 carries exactly the requested bytes of the
 resource, a 200 the whole of it.  Which status it answers with, where bodies break, and how much
 a single read delivers is left open.
 */
module HttpRange {
  import opened Basics

  type Byte = int

  datatype Error =
    | InvalidRange | InvalidWhence | OutsideRange
    | NotFound | RangeNotSupported | BadStatus | NetworkError | BodyError
    | EndOfFile | UnexpectedEndOfFile

  /** Failures of the server or the network, as opposed to of the request. */
  predicate ServerFault(e: Error) {
    e in {NotFound, RangeNotSupported, BadStatus, NetworkError, BodyError}
  }

  datatype Reply = Broken | Status(code: int, etag: string)

  /** A reply that carries the bytes from `offset` on: 206, or the whole unchanged resource from its start. */
  predicate Acceptable(etag: string, offset: int, reply: Reply) {
    && reply.Status?
    && (reply.code == 206 || (reply.code == 200 && offset <= 0 && (etag == "" || etag == reply.etag)))
  }

  /** The error any other reply gives. */
  function Refusal(reply: Reply): Error {
    match reply
    case Broken => NetworkError
    case Status(code, _) =>
      if code == 404 then NotFound else if code == 200 || code == 416 then RangeNotSupported else BadStatus
  }

  /** Refusals that condemn the resource, as opposed to the one request. */
  predicate Condemns(e: Error) { e == NotFound || e == RangeNotSupported }

  /**
   What a body does when it is read: it has `bytes` ready, breaks after them or not, and reports
   its end together with the last bytes or on its own.
   */
  datatype Delivery = Delivery(bytes: nat, broken: bool, endAtOnce: bool)

  /** How much a read of `size` bytes gets out of a body with `left` bytes left. */
  function Count(d: Delivery, size: nat, left: nat): (n: nat)
    requires size > 0
    ensures n <= size && n <= left
    ensures n == 0 ==> d.broken || left == 0
    ensures 0 < d.bytes <= size && d.bytes <= left ==> n == d.bytes
  {
    var most := if size < left then size else left;
    if d.bytes == 0 && !d.broken && most > 0 then 1 else if d.bytes < most then d.bytes else most
  }

  function Ending(d: Delivery, n: nat, left: nat): Option<Error> {
    if d.broken then Some(BodyError)
    else if n == left && (n == 0 || d.endAtOnce) then Some(EndOfFile)
    else None
  }

  datatype Whence = FromStart | FromCurrent | FromEnd | OtherWhence

  /** The unread part of a response: the resource's bytes from `next` up to `stop`. */
  datatype Body = Body(next: nat, stop: nat)

  class Metrics {
    var openRequests: int
  }

  class Resource {
    const content: seq<Byte>
    const etag: string
    var err: Option<Error>  // sticky: no operation clears it
    var requests: nat       // requests sent so far
    var breaks: nat         // bodies that broke in a read that delivered something

    constructor (content: seq<Byte>, etag: string)
      ensures this.content == content && this.etag == etag && err == None && requests == 0 && breaks == 0
    {
      this.content, this.etag, err, requests, breaks := content, etag, None, 0, 0;
    }
  }

  class Reader {
    const resource: Resource
    const metrics: Metrics
    const rangeStart: int
    const rangeSize: int
    var offset: int
    var res: Option<Body>

    ghost const end: int := rangeStart + rangeSize

    ghost predicate Valid()
      reads this
    {
      && rangeStart <= offset
      && (res.Some? ==>
            && 0 <= rangeStart && 0 <= rangeSize && end <= |resource.content|
            && rangeStart <= res.value.next <= res.value.stop
            && (res.value.stop == end || (rangeStart == 0 && res.value.stop == |resource.content|)))
    }

    /** The response, if any, stands where the reader thinks it does. */
    ghost predicate Aligned()
      reads this
    {
      res.Some? ==> res.value.next == offset
    }

    /** The response ends with the section, as every 206 does. */
    ghost predicate Bounded()
      reads this
    {
      res.Some? ==> res.value.stop == end
    }

    /** Where the next byte comes from. */
    ghost function Position(): int
      reads this
    {
      if res.Some? then res.value.next else offset
    }

    /** There is something to ask for: the section lies in the resource, and the reader before its end. */
    ghost predicate InSection()
      reads this
    {
      0 <= rangeStart <= offset < end <= |resource.content|
    }

    /** A read gets a body to read from. */
    ghost predicate Opens(reply: Reply)
      reads this
    {
      res.Some? || (InSection() && Acceptable(resource.etag, offset, reply))
    }

    /** Where that body ends. */
    ghost function Stop(reply: Reply): int
      reads this
    {
      if res.Some? then res.value.stop
      else if reply.Status? && reply.code == 206 then end
      else |resource.content|
    }

    ghost function Left(reply: Reply): nat
      requires Valid() && Opens(reply)
      reads this
    {
      Stop(reply) - Position()
    }

    /** What a read that gets no body reports. */
    ghost function Denial(reply: Reply): Error
      reads this
    {
      if InSection() then Refusal(reply) else InvalidRange
    }

    /** The body breaks while delivering something. */
    ghost predicate Breaks(size: nat, reply: Reply, d: Delivery)
      requires Valid()
      reads this
    {
      size > 0 && Opens(reply) && d.broken && Count(d, size, Left(reply)) > 0
    }

    ghost function Held(): int
      reads this
    {
      if res.Some? then 1 else 0
    }

    ghost predicate DataAt(p: int, data: seq<Byte>) {
      0 <= p && p + |data| <= |resource.content| && data == resource.content[p..p + |data|]
    }

    constructor (resource: Resource, metrics: Metrics, offset: int, size: int)
      ensures this.resource == resource && this.metrics == metrics
      ensures rangeStart == this.offset == offset && rangeSize == size && res == None
      ensures Valid() && Aligned() && Bounded()
    {
      this.resource, this.metrics := resource, metrics;
      rangeStart, rangeSize := offset, size;
      this.offset, res := offset, None;
    }

    method PrepareRequest() returns (err: Option<Error>)
      ensures err.None? <==> InSection()
      ensures err.Some? ==> err.value == InvalidRange
    {
      if rangeStart < 0 || rangeSize < 0 || rangeStart + rangeSize > |resource.content| {
        return Some(InvalidRange);
      }
      if offset < rangeStart || offset >= rangeStart + rangeSize {
        return Some(InvalidRange);
      }
      return None;
    }

    method SetResponse(reply: Reply) returns (err: Option<Error>)
      requires reply.Status? && res == None && InSection()
      modifies this`res, resource`err
      ensures err.None? <==> Acceptable(resource.etag, offset, reply)
      ensures err.None? <==>
              || reply.code == 206
              || (reply.code == 200 && offset == 0 && (resource.etag == "" || resource.etag == reply.etag))
      ensures reply.code == 404 ==> err == Some(NotFound)
      ensures reply.code == 416 || (reply.code == 200 && err.Some?) ==> err == Some(RangeNotSupported)
      ensures reply.code !in {200, 206, 404, 416} ==> err == Some(BadStatus) && resource.err == old(resource.err)
      ensures err == Some(NotFound) || err == Some(RangeNotSupported) ==> resource.err == err
      ensures err.None? ==> res == Some(Body(offset, old(Stop(reply))))
      ensures err.Some? ==> res == None && err.value == Refusal(reply)
      ensures resource.err == if err.Some? && Condemns(err.value) then err else old(resource.err)
    {
      if reply.code == 200 {
        if offset > 0 || (resource.etag != "" && resource.etag != reply.etag) {
          resource.err := Some(RangeNotSupported);
          return Some(RangeNotSupported);
        }
        res := Some(Body(0, |resource.content|));
      } else if reply.code == 404 {
        resource.err := Some(NotFound);
        return Some(NotFound);
      } else if reply.code == 206 {
        res := Some(Body(offset, rangeStart + rangeSize));
      } else if reply.code == 416 {
        resource.err := Some(RangeNotSupported);
        return Some(RangeNotSupported);
      } else {
        return Some(BadStatus);
      }
      return None;
    }

    /** A response to read from: the one at hand, or a new one from where the reader stands. */
    method EnsureResponse(reply: Reply) returns (err: Option<Error>)
      requires Valid()
      modifies this`res, resource`err, resource`requests, metrics`openRequests
      ensures Valid()
      ensures err.None? <==> old(Opens(reply))
      ensures err.None? ==> res == Some(Body(old(Position()), old(Stop(reply))))
      ensures err.Some? ==> res == None && err.value == old(Denial(reply))
      ensures resource.requests == old(resource.requests) + if old(res.None? && InSection()) then 1 else 0
      ensures resource.err == if err.Some? && Condemns(err.value) then err else old(resource.err)
      ensures metrics.openRequests - Held() == old(metrics.openRequests - Held())
    {
      if res.Some? {
        return None;
      }
      err := PrepareRequest();
      if err.Some? {
        return;
      }
      metrics.openRequests := metrics.openRequests + 1;
      resource.requests := resource.requests + 1;
      if reply.Broken? {
        metrics.openRequests := metrics.openRequests - 1;
        return Some(NetworkError);
      }
      err := SetResponse(reply);
      if err.Some? {
        metrics.openRequests := metrics.openRequests - 1;
      }
    }

    method Close()
      modifies this`res, metrics`openRequests
      ensures res == None
      ensures metrics.openRequests - Held() == old(metrics.openRequests - Held())
    {
      if res.Some? {
        res := None;
        metrics.openRequests := metrics.openRequests - 1;
      }
    }

    /** Where a seek leads, on the section taken by itself. */
    ghost function Target(delta: int, whence: Whence): int
      reads this
    {
      match whence
      case FromStart => rangeStart + delta
      case FromCurrent => offset + delta
      case FromEnd => end + delta
      case OtherWhence => rangeStart - 1
    }

    method Seek(delta: int, whence: Whence) returns (at: int, err: Option<Error>)
      requires Valid()
      modifies this`res, this`offset, metrics`openRequests
      ensures Valid()
      ensures err.None? <==> rangeStart <= old(Target(delta, whence)) <= end
      ensures whence.FromStart? ==> (err.None? <==> 0 <= delta <= rangeSize) && (err.None? ==> at == delta)
      ensures whence.FromCurrent? && err.None? ==> offset == old(offset) + delta
      ensures whence.FromEnd? ==> (err.None? <==> 0 <= rangeSize + delta && delta <= 0)
      ensures whence.FromEnd? && err.None? ==> at == rangeSize + delta
      ensures whence.OtherWhence? ==> err == Some(InvalidWhence)
      ensures err.None? ==> offset == old(Target(delta, whence)) && at == offset - rangeStart
      ensures err.Some? ==> offset == old(offset) && res == old(res)
      ensures offset == old(offset) ==> res == old(res)
      ensures offset != old(offset) ==> res == None
      ensures metrics.openRequests - Held() == old(metrics.openRequests - Held())
    {
      var newOffset;
      match whence {
        case FromStart => newOffset := rangeStart + delta;
        case FromCurrent => newOffset := offset + delta;
        case FromEnd => newOffset := rangeStart + rangeSize + delta;
        case OtherWhence => return 0, Some(InvalidWhence);
      }
      if newOffset < rangeStart || newOffset > rangeStart + rangeSize {
        return 0, Some(OutsideRange);
      }
      if newOffset != offset {
        Close();
      }
      offset := newOffset;
      return newOffset - rangeStart, None;
    }

    /** What a response body delivers: some of its bytes, its end, or a failure. */
    method ReadBody(size: nat, d: Delivery) returns (data: seq<Byte>, err: Option<Error>)
      requires Valid() && res.Some? && size > 0
      modifies this`res, resource`breaks
      ensures Valid()
      ensures
        var left := old(res).value.stop - old(res).value.next;
        && |data| == Count(d, size, left) && err == Ending(d, |data|, left)
        && res == Some(Body(old(res).value.next + |data|, old(res).value.stop))
        && DataAt(old(res).value.next, data)
      ensures resource.breaks == old(resource.breaks) + if d.broken && data != [] then 1 else 0
    {
      var body := res.value;
      var n := Count(d, size, body.stop - body.next);
      err := Ending(d, n, body.stop - body.next);
      if d.broken && n > 0 {
        resource.breaks := resource.breaks + 1;
      }
      data := resource.content[body.next..body.next + n];
      res := Some(Body(body.next + n, body.stop));
    }

    /**
     Read at most `size` bytes.  Whether they come, how many, and how the read ends follows from
     the state, the reply and the delivery; they are the resource's bytes from where the response
     stands.  Reader and response stay together unless the body breaks while delivering something.
     */
    method Read(size: nat, reply: Reply, d: Delivery) returns (data: seq<Byte>, err: Option<Error>)
      requires Valid()
      modifies this`res, this`offset, resource`err, resource`requests, resource`breaks, metrics`openRequests
      ensures Valid()
      ensures size == 0 ==> data == [] && err == None && offset == old(offset) && res == old(res)
      ensures size > 0 && !old(Opens(reply)) ==>
                data == [] && err == Some(old(Denial(reply))) && offset == old(offset) && res == None
      ensures size > 0 && old(Opens(reply)) ==>
                && |data| == Count(d, size, old(Left(reply))) && err == Ending(d, |data|, old(Left(reply)))
                && DataAt(old(Position()), data)
                && res == Some(Body(old(Position()) + |data|, old(Stop(reply))))
                && offset == old(offset) + if d.broken then 0 else |data|
      ensures old(Aligned()) ==> (Aligned() <==> !old(Breaks(size, reply, d)))
      // accounting
      ensures resource.breaks == old(resource.breaks) + if old(Breaks(size, reply, d)) then 1 else 0
      ensures resource.requests == old(resource.requests) + if size > 0 && old(res.None? && InSection()) then 1 else 0
      ensures metrics.openRequests - Held() == old(metrics.openRequests - Held())
      ensures resource.err == if err.Some? && Condemns(err.value) then err else old(resource.err)
    {
      if size == 0 {
        return [], None;
      }
      err := EnsureResponse(reply);
      if err.Some? {
        return [], err;
      }
      data, err := ReadBody(size, d);
      if err.None? || err.value == EndOfFile {
        offset := offset + |data|;
      }
    }
  }
}
