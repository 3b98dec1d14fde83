// The request admission of the streaming component: a tile asks for its children to be
// staged by enqueuing a request; at most `maxConcurrentRequests` requests run at once, and
// the Finished callback of a request frees its place. The priority queue is not part of this
// model: which queued request `Dequeue` hands out is the choice `pick` makes.
module Requests {

  /** `MAX_QUEUE_SIZE`: the queue size from which the manager reports itself full. */
  const MAX_QUEUE_SIZE: nat := 100
  /** The `maxConcurrentRequests` a new manager is given. */
  const MAX_CONCURRENT_REQUESTS: int := 6

  /** `Request`: the tile whose children it stages (its id) and its priority. */
  datatype Request = Request(node: nat, priority: real)

  /** The priority queue's choice: `pick(q) % |q|` is the position in q of the request
      `Dequeue` returns. */
  type Pick = seq<Request> -> nat

  class RequestManager {
    var maxConcurrentRequests: int
    var currentRequests: int
    /** The priority queue's contents, in the order they were enqueued. */
    var queue: seq<Request>
    /** The requests whose Started promise has been resolved, in the order `Process` resolved
        them. */
    ghost var started: seq<Request>
    /** The started requests whose Finished callback has not run yet. */
    ghost var running: multiset<Request>

    /** The counter counts the running requests and never passes the limit. */
    ghost predicate Valid()
      reads this
    {
      maxConcurrentRequests == MAX_CONCURRENT_REQUESTS &&
      currentRequests == |running| && currentRequests <= maxConcurrentRequests
    }

    /** `RequestManager()`: no request running, at most six at once, an empty queue. */
    constructor ()
      ensures Valid()
      ensures currentRequests == 0 && maxConcurrentRequests == 6 && queue == []
      ensures started == [] && running == multiset{}
    {
      currentRequests := 0;
      maxConcurrentRequests := 6;
      queue := [];
      started := [];
      running := multiset{};
    }

    /** `Full`: the queue holds at least `MAX_QUEUE_SIZE` requests. */
    predicate Full()
      reads this
    {
      |queue| >= MAX_QUEUE_SIZE
    }

    /** `EnqueRequest`: the request joins the queue, whether or not the queue is full. */
    method EnqueRequest(request: Request)
      modifies this
      ensures queue == old(queue) + [request]
      ensures currentRequests == old(currentRequests) && maxConcurrentRequests == old(maxConcurrentRequests)
      ensures started == old(started) && running == old(running)
    {
      queue := queue + [request];
    }

    /** `Process`: while fewer than the limit run and the queue is not empty, dequeue a
        request, count it as running and resolve its Started promise. Afterwards the limit is
        reached or the queue is empty; every request that left the queue was started, once. */
    method Process(pick: Pick)
      requires Valid()
      modifies this
      ensures Valid()
      ensures currentRequests >= maxConcurrentRequests || queue == []
      ensures |old(started)| <= |started| && started[..|old(started)|] == old(started)
      ensures currentRequests == old(currentRequests) + (|started| - |old(started)|)
      ensures multiset(queue) + multiset(started[|old(started)|..]) == multiset(old(queue))
      ensures running == old(running) + multiset(started[|old(started)|..])
    {
      ghost var s0, q0, r0, c0 := started, queue, running, currentRequests;
      while currentRequests < maxConcurrentRequests && |queue| > 0
        invariant Valid()
        invariant |s0| <= |started| && started[..|s0|] == s0
        invariant currentRequests == c0 + (|started| - |s0|)
        invariant multiset(queue) + multiset(started[|s0|..]) == multiset(q0)
        invariant running == r0 + multiset(started[|s0|..])
        decreases |queue|
      {
        var i := pick(queue) % |queue|;
        var request := queue[i];
        assert queue == queue[..i] + [request] + queue[i + 1..];
        queue := queue[..i] + queue[i + 1..];
        currentRequests := currentRequests + 1;
        running := running + multiset{request};
        assert started[|s0|..] + [request] == (started + [request])[|s0|..];
        started := started + [request];
      }
    }

    /** The Finished callback of a started request: its place is freed. A request that has
        finished once is no longer running, so its callback cannot free a second place. */
    method Finished(request: Request)
      requires Valid() && request in running
      modifies this
      ensures Valid()
      ensures currentRequests == old(currentRequests) - 1
      ensures running == old(running) - multiset{request}
      ensures queue == old(queue) && started == old(started)
    {
      currentRequests := currentRequests - 1;
      running := running - multiset{request};
    }
  }
}
