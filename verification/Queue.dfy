/** The request and response queues, the client handlers and the workers, as a state
    machine whose steps are the atomic queue operations. Any number of handlers and
    workers take turns in any order. */
module Queue {
  import opened Wrappers

  type Id = string

  /** What a handler pushes for its client; `parses` tells whether the worker's
      decoding will accept it. */
  datatype Request = Request(id: Id, data: string, parses: bool)

  /** What a worker pushes; `data` is the request data it was computed from. */
  datatype Response = Response(id: Id, data: string, text: string, parses: bool)

  datatype Client = Refused | Waiting | Served(text: string) | TimedOut

  datatype Answer = Answer(data: string, text: string)

  /** `asked`, `answered`, `delivered` and `discarded` record the past. */
  datatype World = World(
    requests: seq<Request>,
    workers: seq<Option<Request>>,
    responses: seq<Response>,
    clients: map<Id, Client>,
    asked: map<Id, string>,
    answered: map<Id, Answer>,
    delivered: seq<Id>,
    discarded: seq<Id>)

  datatype Event =
    | Enqueue(id: Id, data: string, parses: bool)
    | Refuse(id: Id)                                   // the push of the request fails
    | Take(worker: nat)
    | Reply(worker: nat, text: string, parses: bool)
    | LoseReply(worker: nat, text: string)             // the push of the response fails
    | Poll(id: Id)
    | GiveUp(id: Id)                                   // timeout or error while polling

  function Start(workers: nat): World {
    World([], seq(workers, i => None), [], map[], map[], map[], [], [])
  }

  predicate IsWaiting(w: World, id: Id) {
    id in w.clients && w.clients[id] == Waiting
  }

  predicate IsBusy(w: World, i: nat) {
    i < |w.workers| && w.workers[i].Some?
  }

  /** Client identifiers are fresh: each connection has its own address. */
  predicate Enabled(w: World, e: Event) {
    match e
    case Enqueue(id, _, _) => id !in w.clients
    case Refuse(id) => id !in w.clients
    case Take(i) => i < |w.workers| && w.workers[i] == None && w.requests != []
    case Reply(i, _, _) => IsBusy(w, i)
    case LoseReply(i, _) => IsBusy(w, i)
    case Poll(id) => IsWaiting(w, id) && w.responses != []
    case GiveUp(id) => IsWaiting(w, id)
  }

  function Answered(w: World, i: nat, text: string): World
    requires IsBusy(w, i)
  {
    var r := w.workers[i].value;
    w.(workers := w.workers[i := None], answered := w.answered[r.id := Answer(r.data, text)])
  }

  function Next(w: World, e: Event): World
    requires Enabled(w, e)
  {
    match e
    case Enqueue(id, data, parses) =>
      w.(requests := w.requests + [Request(id, data, parses)], clients := w.clients[id := Waiting],
         asked := w.asked[id := data])
    case Refuse(id) => w.(clients := w.clients[id := Refused])
    case Take(i) =>
      var r := w.requests[0];
      if r.parses then w.(requests := w.requests[1..], workers := w.workers[i := Some(r)])
      else w.(requests := w.requests[1..], discarded := w.discarded + [r.id])
    case Reply(i, text, parses) =>
      var r := w.workers[i].value;
      Answered(w, i, text).(responses := w.responses + [Response(r.id, r.data, text, parses)])
    case LoseReply(i, text) =>
      Answered(w, i, text).(discarded := w.discarded + [w.workers[i].value.id])
    case Poll(id) =>
      var r := w.responses[0];
      if r.parses && r.id == id then
        w.(responses := w.responses[1..], clients := w.clients[id := Served(r.text)], delivered := w.delivered + [id])
      else w.(responses := w.responses[1..], discarded := w.discarded + [r.id])
    case GiveUp(id) => w.(clients := w.clients[id := TimedOut])
  }

  ghost predicate Run(w: World, events: seq<Event>, v: World)
    decreases |events|
  {
    if events == [] then w == v else Enabled(w, events[0]) && Run(Next(w, events[0]), events[1..], v)
  }

  // --------------------------------------------------------------- invariant

  function RequestIds(rs: seq<Request>): seq<Id> {
    seq(|rs|, i requires 0 <= i < |rs| => rs[i].id)
  }

  function ResponseIds(rs: seq<Response>): seq<Id> {
    seq(|rs|, i requires 0 <= i < |rs| => rs[i].id)
  }

  function Times(ids: seq<Id>, id: Id): nat {
    multiset(ids)[id]
  }

  function Holding(ws: seq<Option<Request>>, id: Id): nat {
    if ws == [] then 0 else Holding(ws[..|ws| - 1], id) + One(ws[|ws| - 1], id)
  }

  function One(x: Option<Request>, id: Id): nat {
    if x.Some? && x.value.id == id then 1 else 0
  }

  /** In how many places a request is before it is answered, and after. */
  function Open(w: World, id: Id): nat {
    Times(RequestIds(w.requests), id) + Holding(w.workers, id)
  }

  function Closed(w: World, id: Id): nat {
    Times(ResponseIds(w.responses), id) + Times(w.delivered, id) + Times(w.discarded, id)
  }

  /** Every request that was ever enqueued is in exactly one place. */
  ghost predicate Conserved(w: World) {
    forall id :: OnceIfAsked(w, id)
  }

  predicate OnceIfAsked(w: World, id: Id) {
    Open(w, id) + Closed(w, id) == if id in w.asked then 1 else 0
  }

  /** What is on its way belongs to who asked for it. */
  ghost predicate GenuineRequests(w: World) {
    && (forall i | 0 <= i < |w.requests| :: var r := w.requests[i]; r.id in w.asked && w.asked[r.id] == r.data)
    && (forall i: nat | IsBusy(w, i) :: var r := w.workers[i].value; r.id in w.asked && w.asked[r.id] == r.data)
  }

  ghost predicate GenuineResponses(w: World) {
    forall i | 0 <= i < |w.responses| ::
      var r := w.responses[i]; r.id in w.answered && w.answered[r.id] == Answer(r.data, r.text)
  }

  /** Answers were computed from the request of the client they are for, and only
      for requests that are no longer open. */
  ghost predicate AnswersClosed(w: World) {
    forall id | id in w.answered :: id in w.asked && w.answered[id].data == w.asked[id] && Open(w, id) == 0
  }

  ghost predicate ClientsFit(w: World) {
    && (forall id | id in w.asked :: id in w.clients && w.clients[id] != Refused)
    && (forall id | id in w.clients && w.clients[id].Served? ::
          id in w.delivered && id in w.answered && w.answered[id].text == w.clients[id].text)
    && (forall id | id in w.clients && w.clients[id] == Waiting :: id in w.asked && id !in w.delivered)
  }

  ghost predicate Inv(w: World) {
    Conserved(w) && GenuineRequests(w) && GenuineResponses(w) && AnswersClosed(w) && ClientsFit(w)
  }

  lemma {:induction false} WorkersUpdate(ws: seq<Option<Request>>, i: nat, x: Option<Request>, id: Id)
    requires i < |ws|
    ensures Holding(ws[i := x], id) + One(ws[i], id) == Holding(ws, id) + One(x, id)
    decreases |ws|
  {
    var n := |ws| - 1;
    if i == n {
      assert ws[i := x][..n] == ws[..n];
    } else {
      assert ws[i := x][..n] == ws[..n][i := x] && ws[i := x][n] == ws[n];
      WorkersUpdate(ws[..n], i, x, id);
    }
  }

  lemma {:induction false} NobodyHolds(ws: seq<Option<Request>>, id: Id)
    requires forall i | 0 <= i < |ws| :: ws[i] == None
    ensures Holding(ws, id) == 0
    decreases |ws|
  {
    if ws != [] {
      NobodyHolds(ws[..|ws| - 1], id);
    }
  }

  lemma StartInv(workers: nat)
    ensures Inv(Start(workers))
  {
    forall id ensures OnceIfAsked(Start(workers), id) {
      NobodyHolds(Start(workers).workers, id);
    }
  }

  lemma TimesMore(ids: seq<Id>, x: Id, id: Id)
    ensures Times(ids + [x], id) == Times(ids, id) + (if x == id then 1 else 0)
  {
  }

  lemma RequestsMore(rs: seq<Request>, r: Request, id: Id)
    ensures Times(RequestIds(rs + [r]), id) == Times(RequestIds(rs), id) + (if r.id == id then 1 else 0)
  {
    assert RequestIds(rs + [r]) == RequestIds(rs) + [r.id];
  }

  lemma ResponsesMore(rs: seq<Response>, r: Response, id: Id)
    ensures Times(ResponseIds(rs + [r]), id) == Times(ResponseIds(rs), id) + (if r.id == id then 1 else 0)
  {
    assert ResponseIds(rs + [r]) == ResponseIds(rs) + [r.id];
  }

  lemma RequestsPop(rs: seq<Request>, id: Id)
    requires rs != []
    ensures Times(RequestIds(rs), id) == (if rs[0].id == id then 1 else 0) + Times(RequestIds(rs[1..]), id)
  {
    assert RequestIds(rs) == [rs[0].id] + RequestIds(rs[1..]);
  }

  lemma ResponsesPop(rs: seq<Response>, id: Id)
    requires rs != []
    ensures Times(ResponseIds(rs), id) == (if rs[0].id == id then 1 else 0) + Times(ResponseIds(rs[1..]), id)
  {
    assert ResponseIds(rs) == [rs[0].id] + ResponseIds(rs[1..]);
  }

  /** What a step adds to the open places. */
  function Opened(e: Event, id: Id): nat {
    if e.Enqueue? && e.id == id then 1 else 0
  }

  /** What a step moves from the open to the closed places. */
  function Moved(w: World, e: Event, id: Id): nat
    requires Enabled(w, e)
  {
    match e
    case Take(_) => if !w.requests[0].parses && w.requests[0].id == id then 1 else 0
    case Reply(i, _, _) => One(w.workers[i], id)
    case LoseReply(i, _) => One(w.workers[i], id)
    case _ => 0
  }

  lemma TakeMoves(w: World, i: nat, id: Id)
    requires Enabled(w, Take(i))
    ensures var v := Next(w, Take(i)); var m := Moved(w, Take(i), id);
            Open(v, id) + m == Open(w, id) && Closed(v, id) == Closed(w, id) + m
  {
    RequestsPop(w.requests, id);
    WorkersUpdate(w.workers, i, Some(w.requests[0]), id);
    TimesMore(w.discarded, w.requests[0].id, id);
  }

  lemma ReplyMoves(w: World, i: nat, text: string, parses: bool, id: Id)
    requires IsBusy(w, i)
    ensures var v, e := Next(w, Reply(i, text, parses)), Reply(i, text, parses);
            Open(v, id) + Moved(w, e, id) == Open(w, id) && Closed(v, id) == Closed(w, id) + Moved(w, e, id)
    ensures var v, e := Next(w, LoseReply(i, text)), LoseReply(i, text);
            Open(v, id) + Moved(w, e, id) == Open(w, id) && Closed(v, id) == Closed(w, id) + Moved(w, e, id)
  {
    var r := w.workers[i].value;
    WorkersUpdate(w.workers, i, None, id);
    ResponsesMore(w.responses, Response(r.id, r.data, text, parses), id);
    TimesMore(w.discarded, r.id, id);
  }

  lemma PollMoves(w: World, c: Id, id: Id)
    requires Enabled(w, Poll(c))
    ensures Open(Next(w, Poll(c)), id) == Open(w, id) && Closed(Next(w, Poll(c)), id) == Closed(w, id)
  {
    ResponsesPop(w.responses, id);
    TimesMore(w.discarded, w.responses[0].id, id);
    TimesMore(w.delivered, c, id);
  }

  /** How a step moves requests. */
  lemma StepMoves(w: World, e: Event, id: Id)
    requires Enabled(w, e)
    ensures Open(Next(w, e), id) + Moved(w, e, id) == Open(w, id) + Opened(e, id)
    ensures Closed(Next(w, e), id) == Closed(w, id) + Moved(w, e, id)
  {
    match e
    case Enqueue(c, data, parses) => RequestsMore(w.requests, Request(c, data, parses), id);
    case Take(i) => TakeMoves(w, i, id);
    case Reply(i, text, parses) => ReplyMoves(w, i, text, parses, id);
    case LoseReply(i, text) => ReplyMoves(w, i, text, true, id);
    case Poll(c) => PollMoves(w, c, id);
    case Refuse(_) =>
    case GiveUp(_) =>
  }

  lemma ConservedStep(w: World, e: Event)
    requires Inv(w) && Enabled(w, e)
    ensures Conserved(Next(w, e))
  {
    forall id ensures OnceIfAsked(Next(w, e), id) {
      StepMoves(w, e, id);
      assert OnceIfAsked(w, id);
      if e.Enqueue? {
        assert e.id !in w.asked;
        assert id in Next(w, e).asked <==> id in w.asked || id == e.id;
      }
    }
  }

  lemma {:induction false} BusyHeld(ws: seq<Option<Request>>, i: nat)
    requires i < |ws| && ws[i].Some?
    ensures Holding(ws, ws[i].value.id) > 0
    decreases |ws|
  {
    if i < |ws| - 1 {
      BusyHeld(ws[..|ws| - 1], i);
    }
  }

  lemma AnswerIsNew(w: World, i: nat)
    requires Inv(w) && IsBusy(w, i)
    ensures w.workers[i].value.id !in w.answered
    ensures forall j | 0 <= j < |w.responses| :: w.responses[j].id != w.workers[i].value.id
  {
    BusyHeld(w.workers, i);
    forall j | 0 <= j < |w.responses| ensures w.responses[j].id != w.workers[i].value.id {
      assert w.responses[j].id in w.answered;
    }
  }

  lemma RequestsStep(w: World, e: Event)
    requires Inv(w) && Enabled(w, e)
    ensures GenuineRequests(Next(w, e))
  {
    var v := Next(w, e);
    if e.Enqueue? {
      assert e.id !in w.asked;
    }
    forall j | 0 <= j < |v.requests| ensures var r := v.requests[j]; r.id in v.asked && v.asked[r.id] == r.data {
      if e.Take? {
        assert v.requests[j] == w.requests[j + 1];
      } else {
        assert j < |w.requests| ==> v.requests[j] == w.requests[j];
      }
    }
    forall j: nat | IsBusy(v, j) ensures var r := v.workers[j].value; r.id in v.asked && v.asked[r.id] == r.data {
      assert e.Take? && j == e.worker ==> v.workers[j].value == w.requests[0];
      assert !(e.Take? && j == e.worker) ==> IsBusy(w, j);
    }
  }

  lemma ResponsesStep(w: World, e: Event)
    requires Inv(w) && Enabled(w, e)
    ensures GenuineResponses(Next(w, e))
  {
    var v := Next(w, e);
    if e.Reply? || e.LoseReply? {
      AnswerIsNew(w, e.worker);
    }
    forall j | 0 <= j < |v.responses|
      ensures var r := v.responses[j]; r.id in v.answered && v.answered[r.id] == Answer(r.data, r.text)
    {
      if e.Poll? {
        assert v.responses[j] == w.responses[j + 1];
      } else {
        assert j < |w.responses| ==> v.responses[j] == w.responses[j];
      }
    }
  }

  lemma AnswersClosedStep(w: World, e: Event)
    requires Inv(w) && Enabled(w, e)
    ensures AnswersClosed(Next(w, e))
  {
    var v := Next(w, e);
    ConservedStep(w, e);
    if e.Reply? || e.LoseReply? {
      BusyHeld(w.workers, e.worker);
    }
    forall id | id in v.answered ensures id in v.asked && v.answered[id].data == v.asked[id] && Open(v, id) == 0 {
      StepMoves(w, e, id);
      assert OnceIfAsked(w, id) && OnceIfAsked(v, id);
    }
  }

  lemma ClientsFitStep(w: World, e: Event)
    requires Inv(w) && Enabled(w, e)
    ensures ClientsFit(Next(w, e))
  {
    match e
    case Poll(id) =>
      assert GenuineResponses(w) && w.responses[0].id in w.answered;
    case Enqueue(id, _, _) =>
      assert OnceIfAsked(w, id) && Closed(w, id) == 0;
    case Reply(i, _, _) => AnswerIsNew(w, i);
    case LoseReply(i, _) => AnswerIsNew(w, i);
    case _ =>
  }

  lemma NextInv(w: World, e: Event)
    requires Inv(w) && Enabled(w, e)
    ensures Inv(Next(w, e))
  {
    ConservedStep(w, e);
    RequestsStep(w, e);
    ResponsesStep(w, e);
    AnswersClosedStep(w, e);
    ClientsFitStep(w, e);
  }

  lemma {:induction false} RunInv(w: World, events: seq<Event>, v: World)
    requires Inv(w) && Run(w, events, v)
    ensures Inv(v)
    decreases |events|
  {
    if events != [] {
      NextInv(w, events[0]);
      RunInv(Next(w, events[0]), events[1..], v);
    }
  }

  // ------------------------------------------------------------ consequences

  /** Conservation, over every interleaving: each enqueued request is in exactly one
      place, and nothing else is anywhere. */
  lemma ExactlyOnePlace(workers: nat, events: seq<Event>, w: World, id: Id)
    requires Run(Start(workers), events, w)
    ensures Open(w, id) + Closed(w, id) == if id in w.asked then 1 else 0
  {
    StartInv(workers);
    RunInv(Start(workers), events, w);
    assert OnceIfAsked(w, id);
  }

  /** Matching, over every interleaving: what a client receives is the one answer that
      was computed from its own request. */
  lemma DeliveredIsOwn(workers: nat, events: seq<Event>, w: World, id: Id)
    requires Run(Start(workers), events, w) && id in w.clients && w.clients[id].Served?
    ensures id in w.asked && id in w.answered && w.answered[id] == Answer(w.asked[id], w.clients[id].text)
  {
    StartInv(workers);
    RunInv(Start(workers), events, w);
  }

  /** The steps of a run in which a worker answers the request. */
  function Answers(w: World, events: seq<Event>, id: Id): nat
    decreases |events|
  {
    if events == [] || !Enabled(w, events[0]) then 0
    else
      var e := events[0];
      (if (e.Reply? || e.LoseReply?) && w.workers[e.worker].value.id == id then 1 else 0)
      + Answers(Next(w, e), events[1..], id)
  }

  lemma {:induction false} NeverAgain(w: World, events: seq<Event>, v: World, id: Id)
    requires Inv(w) && Run(w, events, v) && id in w.answered
    ensures Answers(w, events, id) == 0
    decreases |events|
  {
    if events != [] {
      var e := events[0];
      NextInv(w, e);
      if e.Reply? || e.LoseReply? {
        BusyHeld(w.workers, e.worker);
      }
      NeverAgain(Next(w, e), events[1..], v, id);
    }
  }

  lemma {:induction false} AnsweredAtMostOnceFrom(w: World, events: seq<Event>, v: World, id: Id)
    requires Inv(w) && Run(w, events, v)
    ensures Answers(w, events, id) <= 1
    decreases |events|
  {
    if events != [] {
      var e := events[0];
      NextInv(w, e);
      if (e.Reply? || e.LoseReply?) && w.workers[e.worker].value.id == id {
        NeverAgain(Next(w, e), events[1..], v, id);
      } else {
        AnsweredAtMostOnceFrom(Next(w, e), events[1..], v, id);
      }
    }
  }

  /** Every request is handled by at most one worker, and by it at most once. */
  lemma AnsweredAtMostOnce(workers: nat, events: seq<Event>, w: World, id: Id)
    requires Run(Start(workers), events, w)
    ensures Answers(Start(workers), events, id) <= 1
  {
    StartInv(workers);
    AnsweredAtMostOnceFrom(Start(workers), events, w, id);
  }
}
