/** What clients can rely on: when a response arrives, and when it is lost for good. */
module QueueService {
  import opened Wrappers
  import opened Queue

  // ------------------------------------------------------------ lost for good

  lemma {:induction false} DiscardedStays(w: World, events: seq<Event>, v: World)
    requires Run(w, events, v)
    ensures w.discarded <= v.discarded
    decreases |events|
  {
    if events != [] {
      DiscardedStays(Next(w, events[0]), events[1..], v);
    }
  }

  /** A discarded request or response never reaches its client. */
  lemma DiscardedIsLost(w: World, events: seq<Event>, v: World, id: Id)
    requires Inv(w) && id in w.discarded && Run(w, events, v)
    ensures id in v.clients ==> !v.clients[id].Served?
  {
    DiscardedStays(w, events, v);
    RunInv(w, events, v);
    assert OnceIfAsked(v, id);
    var i :| 0 <= i < |w.discarded| && w.discarded[i] == id;
    assert v.discarded[i] == id;
  }

  /** Some continuation serves the client. */
  ghost predicate CanBeServed(w: World, id: Id) {
    exists events, v :: Run(w, events, v) && HasResponse(v, id)
  }

  predicate HasResponse(w: World, id: Id) {
    id in w.clients && w.clients[id].Served?
  }

  /** One poll in a shared queue: the response at the front reaches its client exactly
      if that client is the one that polls; otherwise it is lost for good. */
  lemma PollDecides(w: World, poller: Id)
    requires Inv(w) && Enabled(w, Poll(poller)) && w.responses[0].parses
    ensures CanBeServed(Next(w, Poll(poller)), w.responses[0].id) <==> poller == w.responses[0].id
  {
    var next, c := Next(w, Poll(poller)), w.responses[0].id;
    NextInv(w, Poll(poller));
    if poller == c {
      assert Run(next, [], next) && HasResponse(next, c);
    } else {
      assert next.discarded[|w.discarded|] == c;
      forall events, v | Run(next, events, v) ensures !HasResponse(v, c) {
        DiscardedIsLost(next, events, v, c);
      }
    }
  }

  // ------------------------------------------------- one client, nothing lost

  /** Steps in which no other client polls and no push fails. */
  predicate Quiet(e: Event, c: Id) {
    e.Take? || (e.Reply? && e.parses) || e == Poll(c)
  }

  predicate AllQuiet(events: seq<Event>, c: Id) {
    forall i | 0 <= i < |events| :: Quiet(events[i], c)
  }

  predicate AllParse(w: World) {
    && (forall i | 0 <= i < |w.requests| :: w.requests[i].parses)
    && (forall i | 0 <= i < |w.responses| :: w.responses[i].parses)
  }

  function Busy(ws: seq<Option<Request>>): nat {
    if ws == [] then 0 else Busy(ws[..|ws| - 1]) + (if ws[|ws| - 1].Some? then 1 else 0)
  }

  lemma {:induction false} BusyUpdate(ws: seq<Option<Request>>, i: nat, x: Option<Request>)
    requires i < |ws| && ws[i].Some? != x.Some?
    ensures Busy(ws[i := x]) == Busy(ws) + if x.Some? then 1 else -1
    decreases |ws|
  {
    var n := |ws| - 1;
    if i == n {
      assert ws[i := x][..n] == ws[..n];
    } else {
      assert ws[i := x][..n] == ws[..n][i := x] && ws[i := x][n] == ws[n];
      BusyUpdate(ws[..n], i, x);
    }
  }

  /** The steps that are left to do. */
  function Work(w: World): nat {
    3 * |w.requests| + 2 * Busy(w.workers) + |w.responses|
  }

  /** A client that nobody interferes with: it waits, or it has its response. */
  predicate Hopeful(w: World, c: Id) {
    (IsWaiting(w, c) || HasResponse(w, c)) && c !in w.discarded && AllParse(w) && |w.workers| > 0
  }

  lemma QuietStep(w: World, e: Event, c: Id)
    requires Hopeful(w, c) && Enabled(w, e) && Quiet(e, c)
    ensures Work(Next(w, e)) == Work(w) - 1
    ensures Hopeful(Next(w, e), c)
  {
    match e
    case Take(i) => BusyUpdate(w.workers, i, Some(w.requests[0]));
    case Reply(i, _, _) => BusyUpdate(w.workers, i, None);
    case Poll(_) => assert c !in w.discarded + [w.responses[0].id] || w.responses[0].id == c;
  }

  lemma {:induction false} HeldSomewhere(ws: seq<Option<Request>>, c: Id) returns (i: nat)
    requires Holding(ws, c) > 0
    ensures i < |ws| && ws[i].Some?
    decreases |ws|
  {
    if One(ws[|ws| - 1], c) > 0 {
      i := |ws| - 1;
    } else {
      i := HeldSomewhere(ws[..|ws| - 1], c);
    }
  }

  /** As long as the client waits, there is work and somebody can do some of it. */
  lemma NotStuck(w: World, c: Id)
    requires Inv(w) && Hopeful(w, c) && IsWaiting(w, c)
    ensures exists e :: Quiet(e, c) && Enabled(w, e)
  {
    assert OnceIfAsked(w, c) && c in w.asked && Times(w.delivered, c) == 0 && Times(w.discarded, c) == 0;
    if w.workers[0].Some? {
      assert Quiet(Reply(0, "", true), c) && Enabled(w, Reply(0, "", true));
    } else if w.requests != [] {
      assert Quiet(Take(0), c) && Enabled(w, Take(0));
    } else if w.responses != [] {
      assert Quiet(Poll(c), c) && Enabled(w, Poll(c));
    } else {
      assert Times(RequestIds(w.requests), c) == 0 && Times(ResponseIds(w.responses), c) == 0;
      var i := HeldSomewhere(w.workers, c);
      assert Quiet(Reply(i, "", true), c) && Enabled(w, Reply(i, "", true));
    }
  }

  lemma {:induction false} QuietRun(w: World, events: seq<Event>, v: World, c: Id)
    requires Hopeful(w, c) && Run(w, events, v) && AllQuiet(events, c)
    ensures Hopeful(v, c) && Work(v) == Work(w) - |events|
    decreases |events|
  {
    if events != [] {
      QuietStep(w, events[0], c);
      QuietRun(Next(w, events[0]), events[1..], v, c);
    }
  }

  /** With one polling client and nothing lost, its response arrives: whatever the order
      of the steps, nobody gets stuck while the client waits, and there are no more
      steps than there is work, after which the client has its response. */
  lemma ResponseArrives(w: World, events: seq<Event>, v: World, c: Id)
    requires Inv(w) && Hopeful(w, c) && Run(w, events, v) && AllQuiet(events, c)
    ensures |events| <= Work(w)
    ensures HasResponse(v, c) || exists e :: Quiet(e, c) && Enabled(v, e)
    ensures |events| == Work(w) ==> HasResponse(v, c)
  {
    QuietRun(w, events, v, c);
    RunInv(w, events, v);
    if !HasResponse(v, c) {
      NotStuck(v, c);
      var e :| Quiet(e, c) && Enabled(v, e);
      QuietStep(v, e, c);
    }
  }

  function Polls(events: seq<Event>): nat {
    if events == [] then 0 else (if events[0].Poll? then 1 else 0) + Polls(events[1..])
  }

  /** The first response of the client in the queue is the one at `k`. */
  predicate OwnAt(w: World, c: Id, k: nat) {
    && k < |w.responses| && w.responses[k].id == c && w.responses[k].parses
    && forall j | 0 <= j < k :: w.responses[j].id != c
  }

  lemma StepAhead(w: World, e: Event, c: Id, k: nat)
    requires Quiet(e, c) && Enabled(w, e) && IsWaiting(w, c) && OwnAt(w, c, k)
    ensures !e.Poll? ==> IsWaiting(Next(w, e), c) && OwnAt(Next(w, e), c, k)
    ensures e.Poll? && k > 0 ==> IsWaiting(Next(w, e), c) && OwnAt(Next(w, e), c, k - 1)
    ensures var next := Next(w, e); var text := w.responses[k].text;
            && (!e.Poll? ==> next.responses[k].text == text)
            && (e.Poll? && k > 0 ==> next.responses[k - 1].text == text)
  {
  }

  lemma ConsumedAhead(w: World, e: Event, c: Id, k: nat, n: nat)
    requires Quiet(e, c) && Enabled(w, e) && OwnAt(w, c, k) && n <= k && AllParse(w)
    ensures !e.Poll? ==> Next(w, e).discarded == w.discarded && Next(w, e).responses[..n] == w.responses[..n]
    ensures e.Poll? && 0 < n ==>
              Next(w, e).discarded + ResponseIds(Next(w, e).responses[..n - 1])
                  == w.discarded + ResponseIds(w.responses[..n])
  {
    if e.Poll? && 0 < n {
      var next := Next(w, e);
      assert ResponseIds(w.responses[..n]) == [w.responses[0].id] + ResponseIds(next.responses[..n - 1]);
    }
  }

  lemma ParseStep(w: World, e: Event, c: Id)
    requires Quiet(e, c) && Enabled(w, e) && AllParse(w)
    ensures AllParse(Next(w, e))
  {
  }

  /** The client consumes exactly the responses ahead of its own, and then its own. */
  lemma {:induction false} ConsumesOnlyAhead(w: World, events: seq<Event>, v: World, c: Id, k: nat)
    requires Run(w, events, v) && AllQuiet(events, c) && IsWaiting(w, c) && AllParse(w) && OwnAt(w, c, k)
    ensures Polls(events) <= k + 1
    ensures Polls(events) <= k ==>
        IsWaiting(v, c) && v.discarded == w.discarded + ResponseIds(w.responses[..Polls(events)])
    ensures Polls(events) == k + 1 ==>
              && c in v.clients && v.clients[c] == Served(w.responses[k].text)
              && v.discarded == w.discarded + ResponseIds(w.responses[..k])
    decreases |events|
  {
    if events == [] {
      assert ResponseIds(w.responses[..0]) == [];
      assert w.discarded + [] == w.discarded;
    } else {
      var e, next, rest := events[0], Next(w, events[0]), events[1..];
      ParseStep(w, e, c);
      StepAhead(w, e, c, k);
      if e.Poll? && k == 0 {
        AfterServed(next, rest, v, c);
        assert ResponseIds(w.responses[..0]) == [];
        assert w.discarded + [] == w.discarded;
      } else {
        var k' := if e.Poll? then k - 1 else k;
        ConsumesOnlyAhead(next, rest, v, c, k');
        ConsumedAhead(w, e, c, k, if Polls(events) <= k then Polls(events) else k);
      }
    }
  }

  lemma {:induction false} AfterServed(w: World, events: seq<Event>, v: World, c: Id)
    requires Run(w, events, v) && AllQuiet(events, c) && c in w.clients && w.clients[c].Served?
    requires AllParse(w)
    ensures Polls(events) == 0 && c in v.clients && v.clients[c] == w.clients[c] && v.discarded == w.discarded
    decreases |events|
  {
    if events != [] {
      ParseStep(w, events[0], c);
      AfterServed(Next(w, events[0]), events[1..], v, c);
    }
  }
}
