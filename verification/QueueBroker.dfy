/** The loops of the client handler and of the workers, over the two shared queues. */
module QueueBroker {
  import opened Wrappers
  import opened Queue

  type Handler = string -> string

  /** Responses to the requests that parse, in order. */
  function Replies(rs: seq<Request>, handle: Handler): seq<Response> {
    if rs == [] then []
    else Replies(rs[..|rs| - 1], handle) + ReplyTo(rs[|rs| - 1], handle)
  }

  function ReplyTo(r: Request, handle: Handler): seq<Response> {
    if r.parses then [Response(r.id, r.data, handle(r.data), true)] else []
  }

  lemma {:induction false} RunOn(w: World, events: seq<Event>, v: World, e: Event)
    requires Run(w, events, v) && Enabled(v, e)
    ensures Run(w, events + [e], Next(v, e))
    decreases |events|
  {
    if events == [] {
      assert [] + [e] == [e] && [e][1..] == [];
    } else {
      assert (events + [e])[1..] == events[1..] + [e];
      RunOn(Next(w, events[0]), events[1..], v, e);
    }
  }

  class Broker {
    var requestQueue: seq<Request>
    var responseQueue: seq<Response>
    var workers: seq<Option<Request>>
    var clients: map<Id, Client>
    ghost var asked: map<Id, string>
    ghost var answered: map<Id, Answer>
    ghost var delivered: seq<Id>
    ghost var discarded: seq<Id>

    ghost function View(): World
      reads this
    {
      World(requestQueue, workers, responseQueue, clients, asked, answered, delivered, discarded)
    }

    constructor (n: nat)
      ensures View() == Start(n)
    {
      requestQueue, responseQueue, workers, clients := [], [], seq(n, i => None), map[];
      asked, answered, delivered, discarded := map[], map[], [], [];
    }

    /** The handler wraps the payload with the client's id and pushes it. */
    method Push(id: Id, data: string, parses: bool)
      requires id !in clients
      modifies this
      ensures View() == Next(old(View()), Enqueue(id, data, parses))
    {
      requestQueue := requestQueue + [Request(id, data, parses)];
      clients := clients[id := Waiting];
      asked := asked[id := data];
    }

    /** One turn of the handler's polling loop: pop, decode, compare the client id. */
    method PollOnce(id: Id) returns (response: Option<string>)
      requires Enabled(View(), Poll(id))
      modifies this
      ensures View() == Next(old(View()), Poll(id))
      ensures response == match clients[id] case Served(text) => Some(text) case _ => None
    {
      var r := responseQueue[0];
      responseQueue := responseQueue[1..];
      if r.parses && r.id == id {
        clients := clients[id := Served(r.text)];
        delivered := delivered + [id];
        return Some(r.text);
      }
      discarded := discarded + [r.id];
      response := None;
    }

    /** The polling loop while no one else takes a turn: every response ahead of the
        client's own is discarded, everything behind it stays, and without a response
        of its own the client empties the queue and times out. */
    method AwaitResponse(id: Id) returns (response: Option<string>, ghost events: seq<Event>)
      requires IsWaiting(View(), id)
      modifies this
      ensures Run(old(View()), events, View())
      ensures requestQueue == old(requestQueue) && workers == old(workers)
      ensures response == None ==>
                && clients == old(clients)[id := TimedOut] && responseQueue == []
                && discarded == old(discarded) + ResponseIds(old(responseQueue))
                && forall i | 0 <= i < |old(responseQueue)| ::
                     old(responseQueue[i].parses) ==> old(responseQueue[i].id) != id
      ensures response.Some? ==>
                && clients == old(clients)[id := Served(response.value)]
                && exists k :: 0 <= k < |old(responseQueue)|
                     && old(responseQueue)[k].id == id && old(responseQueue)[k].text == response.value
                     && (forall i | 0 <= i < k :: old(responseQueue)[i].parses ==> old(responseQueue)[i].id != id)
                     && discarded == old(discarded) + ResponseIds(old(responseQueue)[..k])
                     && responseQueue == old(responseQueue)[k + 1..]
    {
      events := [];
      ghost var start, n := View(), 0;
      assert start.discarded + ResponseIds(start.responses[..0]) == start.discarded;
      while responseQueue != []
        invariant 0 <= n <= |start.responses| && responseQueue == start.responses[n..]
        invariant Run(start, events, View()) && clients == start.clients
        invariant requestQueue == start.requests && workers == start.workers
        invariant discarded == start.discarded + ResponseIds(start.responses[..n])
        invariant forall i | 0 <= i < n :: start.responses[i].parses ==> start.responses[i].id != id
        decreases |responseQueue|
      {
        RunOn(start, events, View(), Poll(id));
        events := events + [Poll(id)];
        assert ResponseIds(start.responses[..n + 1]) == ResponseIds(start.responses[..n]) + [start.responses[n].id];
        response := PollOnce(id);
        if response.Some? {
          return;
        }
        n := n + 1;
      }
      assert start.responses[..n] == start.responses;
      RunOn(start, events, View(), GiveUp(id));
      events := events + [GiveUp(id)];
      clients := clients[id := TimedOut];
      response := None;
    }

    /** The body of a worker's loop: take a request, and reply if it parses. */
    method ServeOne(i: nat, handle: Handler) returns (ghost events: seq<Event>)
      requires i < |workers| && workers[i] == None && requestQueue != []
      modifies this
      ensures Run(old(View()), events, View())
      ensures requestQueue == old(requestQueue)[1..] && workers == old(workers) && clients == old(clients)
      ensures responseQueue == old(responseQueue) + ReplyTo(old(requestQueue)[0], handle)
    {
      var r := requestQueue[0];
      ghost var start, taken := View(), Next(View(), Take(i));
      events := [Take(i)];
      assert Run(taken, [], taken) && [Take(i)][1..] == [];
      requestQueue := requestQueue[1..];
      if r.parses {
        RunOn(start, events, taken, Reply(i, handle(r.data), true));
        events := events + [Reply(i, handle(r.data), true)];
        responseQueue := responseQueue + [Response(r.id, r.data, handle(r.data), true)];
        answered := answered[r.id := Answer(r.data, handle(r.data))];
        assert taken.workers[i := None] == start.workers;
      } else {
        discarded := discarded + [r.id];
      }
    }

    /** A worker's loop until the request queue is empty: requests are handled in the
        order in which they were enqueued, those that do not parse are skipped. */
    method Serve(i: nat, handle: Handler) returns (ghost events: seq<Event>)
      requires i < |workers| && workers[i] == None
      modifies this
      ensures Run(old(View()), events, View())
      ensures requestQueue == [] && workers == old(workers) && clients == old(clients)
      ensures responseQueue == old(responseQueue) + Replies(old(requestQueue), handle)
    {
      events := [];
      ghost var start, n := View(), 0;
      assert start.responses + [] == start.responses && start.requests[..0] == [];
      while requestQueue != []
        invariant 0 <= n <= |start.requests| && requestQueue == start.requests[n..]
        invariant Run(start, events, View()) && clients == start.clients && workers == start.workers
        invariant responseQueue == start.responses + Replies(start.requests[..n], handle)
        decreases |requestQueue|
      {
        ghost var here := View();
        ghost var more := ServeOne(i, handle);
        RunThen(start, events, here, more, View());
        events := events + more;
        RepliesMore(start.requests, n, handle);
        n := n + 1;
      }
      assert start.requests[..n] == start.requests;
    }
  }

  lemma {:induction false} RunThen(w: World, a: seq<Event>, u: World, b: seq<Event>, v: World)
    requires Run(w, a, u) && Run(u, b, v)
    ensures Run(w, a + b, v)
    decreases |a|
  {
    if a == [] {
      assert a + b == b;
    } else {
      assert (a + b)[1..] == a[1..] + b;
      RunThen(Next(w, a[0]), a[1..], u, b, v);
    }
  }

  lemma RepliesMore(rs: seq<Request>, n: nat, handle: Handler)
    requires n < |rs|
    ensures Replies(rs[..n + 1], handle) == Replies(rs[..n], handle) + ReplyTo(rs[n], handle)
  {
    assert rs[..n + 1][..n] == rs[..n];
  }
}
