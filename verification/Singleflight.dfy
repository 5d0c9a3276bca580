/**
 The singleflight policy of singleflight.go: the deduplication key, the shared map of flights,
 and the record a flight fills in place.  The digest of a request body is an abstract function.
 */
module Singleflight {
  import opened Wrappers

  type Key = string

  // ----- The key -----

  /** Whether the request's body takes part in its key. */
  predicate KeysOnBody(httpMethod: string, body: Option<seq<Byte>>) {
    body.Some? && httpMethod !in {"GET", "HEAD", "OPTIONS", "DELETE"}
  }

  predicate Oversize(body: seq<Byte>, maxBodySize: int) {
    maxBodySize > 0 && |body| > maxBodySize
  }

  /** The part of the body that the key stands for, if any. */
  function KeyedBody(httpMethod: string, body: Option<seq<Byte>>, maxBodySize: int): Option<seq<Byte>> {
    if KeysOnBody(httpMethod, body) && !Oversize(body.value, maxBodySize) then body else None
  }

  function KeyOf(httpMethod: string, url: string, keyed: Option<seq<Byte>>, digest: seq<Byte> -> string): Key {
    var base := httpMethod + " " + url;
    if keyed.Some? then base + " body:" + digest(keyed.value) else base
  }

  /** The body the next policy can read after the key was built. */
  function BodyAfterKey(httpMethod: string, body: Option<seq<Byte>>, maxBodySize: int): Option<seq<Byte>> {
    if KeysOnBody(httpMethod, body) && Oversize(body.value, maxBodySize) then Some(body.value[..maxBodySize + 1])
    else body
  }

  /** Building the key leaves the body whole exactly when it does not take part in the key, or no
      limit is set, or it exceeds the limit by at most one byte; an oversize body is cut to that. */
  lemma BodyKeptIff(httpMethod: string, body: Option<seq<Byte>>, maxBodySize: int)
    ensures var read := body.Some? && httpMethod !in {"GET", "HEAD", "OPTIONS", "DELETE"};
            && (BodyAfterKey(httpMethod, body, maxBodySize) == body <==>
                !(read && maxBodySize > 0 && |body.value| > maxBodySize + 1))
            && (read && 0 < maxBodySize < |body.value| ==>
                  BodyAfterKey(httpMethod, body, maxBodySize) == Some(body.value[..maxBodySize + 1]))
  {
    if KeysOnBody(httpMethod, body) && Oversize(body.value, maxBodySize) {
      assert |body.value| == maxBodySize + 1 ==> body.value[..maxBodySize + 1] == body.value;
    }
  }

  predicate SpaceFree(s: string) {
    ' ' !in s
  }

  lemma FirstSpaceSplits(a1: string, r1: string, a2: string, r2: string)
    requires SpaceFree(a1) && SpaceFree(a2) && a1 + " " + r1 == a2 + " " + r2
    ensures a1 == a2 && r1 == r2
  {
    var s, t := a1 + " " + r1, a2 + " " + r2;
    assert s[|a1|] == ' ' && t[|a2|] == ' ';
    assert forall i :: 0 <= i < |a1| ==> s[i] == a1[i] && a1[i] in a1;
    assert forall i :: 0 <= i < |a2| ==> t[i] == a2[i] && a2[i] in a2;
    assert a1 == s[..|a1|] && a2 == t[..|a2|];
    assert r1 == s[|a1| + 1..] && r2 == t[|a2| + 1..];
  }

  ghost predicate Injective(digest: seq<Byte> -> string) {
    forall x, y :: digest(x) == digest(y) ==> x == y
  }

  /** Two requests share a key exactly when method, URL and keyed body agree.  In particular two
      oversize bodies, which are not keyed, do not keep requests apart. */
  lemma KeysAgreeIff(m1: string, u1: string, k1: Option<seq<Byte>>, m2: string, u2: string, k2: Option<seq<Byte>>,
                     digest: seq<Byte> -> string)
    requires SpaceFree(m1) && SpaceFree(u1) && SpaceFree(m2) && SpaceFree(u2) && Injective(digest)
    ensures KeyOf(m1, u1, k1, digest) == KeyOf(m2, u2, k2, digest) <==> m1 == m2 && u1 == u2 && k1 == k2
  {
    if KeyOf(m1, u1, k1, digest) == KeyOf(m2, u2, k2, digest) {
      var t1, t2 := Tail(u1, k1, digest), Tail(u2, k2, digest);
      KeyIsMethodAndTail(m1, u1, k1, digest);
      KeyIsMethodAndTail(m2, u2, k2, digest);
      FirstSpaceSplits(m1, t1, m2, t2);
      TailHasSpace(u1, k1, digest);
      TailHasSpace(u2, k2, digest);
      if k1.Some? && k2.Some? {
        var d1, d2 := "body:" + digest(k1.value), "body:" + digest(k2.value);
        FirstSpaceSplits(u1, d1, u2, d2);
        assert d1[5..] == digest(k1.value) && d2[5..] == digest(k2.value);
      }
    }
  }

  /** Requests with one method and URL but different bodies are merged exactly when their method does
      not key on bodies at all, or both bodies are oversize. */
  lemma DifferentBodiesMergeIff(httpMethod: string, url: string, b1: seq<Byte>, b2: seq<Byte>, maxBodySize: int,
                                digest: seq<Byte> -> string)
    requires SpaceFree(httpMethod) && SpaceFree(url) && Injective(digest) && b1 != b2
    ensures KeyOf(httpMethod, url, KeyedBody(httpMethod, Some(b1), maxBodySize), digest) ==
            KeyOf(httpMethod, url, KeyedBody(httpMethod, Some(b2), maxBodySize), digest) <==>
            || httpMethod in {"GET", "HEAD", "OPTIONS", "DELETE"}
            || 0 < maxBodySize < if |b1| < |b2| then |b1| else |b2|
  {
    KeysAgreeIff(httpMethod, url, KeyedBody(httpMethod, Some(b1), maxBodySize),
                 httpMethod, url, KeyedBody(httpMethod, Some(b2), maxBodySize), digest);
  }

  /** The key after the method and the space that follows it. */
  function Tail(url: string, keyed: Option<seq<Byte>>, digest: seq<Byte> -> string): string {
    if keyed.Some? then url + " " + ("body:" + digest(keyed.value)) else url
  }

  lemma TailHasSpace(url: string, keyed: Option<seq<Byte>>, digest: seq<Byte> -> string)
    requires SpaceFree(url)
    ensures keyed.Some? <==> ' ' in Tail(url, keyed, digest)
  {
    if keyed.Some? {
      assert Tail(url, keyed, digest)[|url|] == ' ';
    }
  }

  lemma KeyIsMethodAndTail(httpMethod: string, url: string, keyed: Option<seq<Byte>>, digest: seq<Byte> -> string)
    ensures KeyOf(httpMethod, url, keyed, digest) == httpMethod + " " + Tail(url, keyed, digest)
  {
    if keyed.Some? {
      var d := digest(keyed.value);
      assert httpMethod + " " + url + " body:" + d == httpMethod + " " + (url + " " + ("body:" + d));
    }
  }

  /** What the request's GetBody yields after the key was built; an oversize body leaves it alone. */
  function GetBodyAfterKey(httpMethod: string, body: Option<seq<Byte>>, getBody: Option<seq<Byte>>,
                           maxBodySize: int): Option<seq<Byte>>
  {
    var keyed := KeyedBody(httpMethod, body, maxBodySize);
    if keyed.Some? then keyed else getBody
  }

  /** GetBody agrees with a body that is keyed on, and is left as it was by one that is not. */
  lemma GetBodyFollows(httpMethod: string, body: seq<Byte>, getBody: Option<seq<Byte>>, maxBodySize: int)
    ensures var keyed := httpMethod !in {"GET", "HEAD", "OPTIONS", "DELETE"} &&
                         (maxBodySize <= 0 || |body| <= maxBodySize);
            GetBodyAfterKey(httpMethod, Some(body), getBody, maxBodySize) == if keyed then Some(body) else getBody
    ensures GetBodyAfterKey(httpMethod, None, getBody, maxBodySize) == getBody
  {
  }

  class Request {
    const httpMethod: string
    const url: string
    var body: Option<seq<Byte>>    // the bytes still to be read
    var getBody: Option<seq<Byte>> // what GetBody yields, if it is set
    var contentLength: int
    var closings: nat              // how often a body of this request was closed

    constructor (httpMethod: string, url: string, body: Option<seq<Byte>>, getBody: Option<seq<Byte>>,
                 contentLength: int)
      ensures this.httpMethod == httpMethod && this.url == url
      ensures this.body == body && this.getBody == getBody && this.contentLength == contentLength && closings == 0
    {
      this.httpMethod := httpMethod;
      this.url := url;
      this.body := body;
      this.getBody := getBody;
      this.contentLength := contentLength;
      closings := 0;
    }
  }

  // ----- Flights -----

  const TTL := 60 * SECOND

  predicate Expired(created: int, now: int) {
    now - created > TTL
  }

  datatype Response = Response(status: int, body: Option<seq<Byte>>)

  /** What the upstream call returned; an error is a number. */
  datatype Upstream = Upstream(val: Option<Response>, err: Option<nat>)

  /** The upstream call neither panics nor returns nothing at all. */
  predicate Proper(u: Upstream) {
    u.val.Some? || u.err.Some?
  }

  /** The bytes that are read from the response for all callers to share. */
  function BufferedBody(u: Upstream): seq<Byte> {
    if u.err.None? && u.val.Some? && u.val.value.body.Some? then u.val.value.body.value else []
  }

  datatype Delivery = Failed(err: nat) | Delivered(status: int, body: seq<Byte>, contentLength: int)

  /** The whole of what the upstream call returned, as a caller of Execute sees it. */
  function Deliver(u: Upstream): Delivery
    requires Proper(u)
  {
    if u.err.Some? then Failed(u.err.value)
    else Delivered(u.val.value.status, BufferedBody(u), |BufferedBody(u)|)
  }

  /** A response is delivered with its status and every byte of its body, an error as it is. */
  lemma DeliversEverything(status: int, body: seq<Byte>, err: nat, val: Option<Response>)
    ensures Deliver(Upstream(Some(Response(status, Some(body))), None)) == Delivered(status, body, |body|)
    ensures Deliver(Upstream(Some(Response(status, None)), None)) == Delivered(status, [], 0)
    ensures Deliver(Upstream(val, Some(err))) == Failed(err)
  {
  }

  /** A flight's record: before the upstream call returns it holds neither response nor error. */
  datatype Record = Record(created: int, returned: Upstream, bodyBytes: seq<Byte>, done: bool)

  function Begun(now: int): Record {
    Record(now, Upstream(None, None), [], false)
  }

  function Completed(r: Record, u: Upstream): Record {
    r.(returned := u)
  }

  function Published(r: Record): Record {
    r.(bodyBytes := BufferedBody(r.returned), done := true)
  }

  /** What Execute hands out: the flight's error, or its status and the buffered bytes. */
  function HandOut(r: Record): Delivery
    requires Proper(r.returned)
  {
    if r.returned.err.Some? then Failed(r.returned.err.value)
    else Delivered(r.returned.val.value.status, r.bodyBytes, |r.bodyBytes|)
  }

  /** Whether a caller joins the flight listed under its key, given when that was created. */
  predicate Joins(created: Option<int>, now: int) {
    created.Some? && !Expired(created.value, now)
  }

  function Listed<T>(calls: map<Key, T>, key: Key, flight: T): map<Key, T> {
    calls[key := flight]
  }

  /** The entry goes by its key, whosever it is. */
  function Delisted<T>(calls: map<Key, T>, key: Key): map<Key, T> {
    calls - {key}
  }

  class SingleflightCall {
    const created: int
    var val: Option<Response>
    var err: Option<nat>
    var bodyBytes: seq<Byte>
    var done: bool

    constructor (now: int)
      ensures Fields() == Begun(now)
    {
      created := now;
      val, err, bodyBytes, done := None, None, [], false;
    }

    function Fields(): Record
      reads this
    {
      Record(created, Upstream(val, err), bodyBytes, done)
    }
  }

  class SingleflightPolicy {
    const maxBodySize: int
    var calls: map<Key, SingleflightCall>

    constructor (maxBodySize: int)
      ensures this.maxBodySize == maxBodySize && calls == map[]
    {
      this.maxBodySize := maxBodySize;
      calls := map[];
    }

    method BuildKey(req: Request, digest: seq<Byte> -> string, readFails: bool) returns (key: Option<Key>)
      modifies req
      ensures key == if KeysOnBody(req.httpMethod, old(req.body)) && readFails then None
                     else Some(KeyOf(req.httpMethod, req.url,
                                     KeyedBody(req.httpMethod, old(req.body), maxBodySize), digest))
      ensures key.Some? ==> req.body == BodyAfterKey(req.httpMethod, old(req.body), maxBodySize)
      ensures key.Some? ==> req.getBody == GetBodyAfterKey(req.httpMethod, old(req.body), old(req.getBody), maxBodySize)
      ensures req.contentLength == if key.Some? && KeysOnBody(req.httpMethod, old(req.body)) then |req.body.value|
                                   else old(req.contentLength)
      ensures req.closings == old(req.closings) +
                              if key.Some? && KeysOnBody(req.httpMethod, old(req.body)) then 1 else 0
    {
      var base := req.httpMethod + " " + req.url;
      if req.body.None? || req.httpMethod == "GET" || req.httpMethod == "HEAD" ||
         req.httpMethod == "OPTIONS" || req.httpMethod == "DELETE" {
        return Some(base);
      }
      var bodyBytes := req.body.value;
      if maxBodySize > 0 && |bodyBytes| > maxBodySize + 1 {
        bodyBytes := bodyBytes[..maxBodySize + 1];
      }
      assert Oversize(bodyBytes, maxBodySize) ==> bodyBytes == req.body.value[..maxBodySize + 1];
      if readFails {
        return None;
      }
      req.closings := req.closings + 1;
      req.body := Some(bodyBytes);
      if maxBodySize > 0 && |bodyBytes| > maxBodySize {
        req.contentLength := |bodyBytes|;
        return Some(base);
      }
      req.getBody := Some(bodyBytes);
      req.contentLength := |bodyBytes|;
      return Some(base + " body:" + digest(bodyBytes));
    }

    /** The first section under the mutex: join the flight of the key, or start one.  `now` and
        `created` are its two clock readings. */
    method Enter(key: Key, now: int, created: int) returns (c: SingleflightCall, leads: bool)
      modifies this
      ensures leads <==> !Joins(if key in old(calls) then Some(old(calls)[key].created) else None, now)
      ensures leads <==> key !in old(calls) || now - old(calls)[key].created > 60_000_000_000
      ensures !leads ==> calls == old(calls) && c == calls[key]
      ensures leads ==> fresh(c) && c.Fields() == Begun(created) && calls == Listed(old(calls), key, c)
      ensures leads ==> c.created == created && !c.done && !Proper(c.Fields().returned)
    {
      if key in calls {
        c := calls[key];
        if now - c.created > TTL {
          calls := calls - {key};
        } else {
          return c, false;
        }
      }
      c := new SingleflightCall(created);
      calls := calls[key := c];
      leads := true;
    }

    /** The upstream call returns. */
    method Complete(c: SingleflightCall, u: Upstream)
      modifies c
      ensures c.Fields() == Completed(old(c.Fields()), u)
    {
      c.val, c.err := u.val, u.err;
    }

    /** Buffer the response body, then let the followers go. */
    method Publish(c: SingleflightCall)
      requires c.bodyBytes == []
      modifies c
      ensures c.Fields() == Published(old(c.Fields()))
      ensures c.done && c.val == old(c.val) && c.err == old(c.err)
      ensures c.err.None? && c.val.Some? && c.val.value.body.Some? ==> c.bodyBytes == c.val.value.body.value
      ensures c.err.Some? || c.val.None? || c.val.value.body.None? ==> c.bodyBytes == []
    {
      if c.val.Some? && c.val.value.body.Some? && c.err.None? {
        c.bodyBytes := c.val.value.body.value;
      }
      c.done := true;
    }

    /** The second section under the mutex. */
    method Unlist(key: Key)
      modifies this
      ensures calls == Delisted(old(calls), key)
    {
      calls := calls - {key};
    }

    /** The result of Execute, for the leader and for a follower alike. */
    method Result(c: SingleflightCall) returns (d: Delivery)
      requires c.done && Proper(c.Fields().returned)
      ensures d == HandOut(c.Fields())
      ensures c.err.Some? ==> d == Failed(c.err.value)
      ensures c.err.None? ==> d == Delivered(c.val.value.status, c.bodyBytes, |c.bodyBytes|)
    {
      if c.err.Some? {
        return Failed(c.err.value);
      }
      return Delivered(c.val.value.status, c.bodyBytes, |c.bodyBytes|);
    }
  }
}
