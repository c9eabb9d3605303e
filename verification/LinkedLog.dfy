/** The linked log: batches in a content-addressed store, each naming the one
    before it, and one mutable name per key that should point at the newest. A
    resolve may time out (the batch then starts a new chain) and a publish may
    time out and land later, in any order; writers interleave. */
module LinkedLog {

  /** An entry of a stored batch: what the writers store, or JSON that is none. */
  datatype Entry = Encrypted(randomness: int, data: string) | Malformed

  datatype Batch = Batch(previous: string, entries: seq<Entry>)

  /** The content address of a batch; no content has the empty address. */
  type Address = Batch -> string

  ghost predicate CollisionFree(h: Address) {
    (forall a, b | h(a) == h(b) :: a == b) && forall a :: h(a) != ""
  }

  // ------------------------------------------------------------------ state

  datatype Write = Write(key: string, batch: Batch)

  datatype Publication = Publication(key: string, cid: string)

  /** `log` lists the batches in the order in which they were stored; it is what
      the theorems speak about, no operation reads it. */
  datatype World = World(
    store: map<string, Batch>,
    names: map<string, string>,
    pending: seq<Publication>,
    open: map<int, Write>,
    log: seq<Write>)

  const EMPTY: World := World(map[], map[], [], map[], [])

  /** How a publish ends for the writer: done in time, accepted but late, refused. */
  datatype Outcome = Prompt | Late | Refused

  datatype Event =
    | Start(writer: int, key: string, entries: seq<Entry>, timely: bool)
    | Commit(writer: int, how: Outcome)
    | Abort(writer: int)                   // the upload failed
    | Land(which: nat)                     // a late publish takes effect

  function Resolve(w: World, key: string, timely: bool): string {
    if timely && key in w.names then w.names[key] else ""
  }

  function Next(h: Address, w: World, e: Event): World {
    match e
    case Start(writer, key, entries, timely) =>
      if writer in w.open then w
      else w.(open := w.open[writer := Write(key, Batch(Resolve(w, key, timely), entries))])
    case Commit(writer, how) =>
      if writer !in w.open then w
      else
        var write := w.open[writer];
        var cid := h(write.batch);
        var stored := w.(store := w.store[cid := write.batch], open := w.open - {writer}, log := w.log + [write]);
        (match how
         case Prompt => stored.(names := w.names[write.key := cid])
         case Late => stored.(pending := w.pending + [Publication(write.key, cid)])
         case Refused => stored)
    case Abort(writer) => w.(open := w.open - {writer})
    case Land(which) =>
      if which >= |w.pending| then w
      else
        var p := w.pending[which];
        w.(names := w.names[p.key := p.cid], pending := w.pending[..which] + w.pending[which + 1..])
  }

  function Run(h: Address, w: World, events: seq<Event>): World {
    if events == [] then w else Next(h, Run(h, w, events[..|events| - 1]), events[|events| - 1])
  }

  // -------------------------------------------------------------- invariant

  /** The batch at `cid` was written under `key` before position `n`. */
  ghost predicate Written(h: Address, log: seq<Write>, key: string, cid: string, n: nat) {
    exists i :: 0 <= i < n && i < |log| && IsWrite(h, log[i], key, cid)
  }

  ghost predicate IsWrite(h: Address, write: Write, key: string, cid: string) {
    write.key == key && h(write.batch) == cid
  }

  ghost predicate Known(h: Address, log: seq<Write>, key: string, cid: string, n: nat) {
    cid == "" || Written(h, log, key, cid, n)
  }

  /** Every batch names an older batch of its own key, or none. */
  ghost predicate Linked(h: Address, log: seq<Write>) {
    forall i: nat | i < |log| :: LinkedAt(h, log, i)
  }

  ghost predicate LinkedAt(h: Address, log: seq<Write>, i: nat)
    requires i < |log|
  {
    Known(h, log, log[i].key, log[i].batch.previous, i)
  }

  ghost predicate Inv(h: Address, w: World) {
    && Linked(h, w.log)
    && (forall i | 0 <= i < |w.log| :: h(w.log[i].batch) in w.store && w.store[h(w.log[i].batch)] == w.log[i].batch)
    && (forall k | k in w.names :: Written(h, w.log, k, w.names[k], |w.log|))
    && (forall p | p in w.pending :: Written(h, w.log, p.key, p.cid, |w.log|))
    && (forall id | id in w.open :: Known(h, w.log, w.open[id].key, w.open[id].batch.previous, |w.log|))
  }

  lemma WrittenGrows(h: Address, log: seq<Write>, more: seq<Write>, key: string, cid: string, n: nat, m: nat)
    requires n <= m && Written(h, log, key, cid, n)
    ensures Written(h, log + more, key, cid, m)
  {
    var i :| 0 <= i < n && i < |log| && IsWrite(h, log[i], key, cid);
    assert (log + more)[i] == log[i];
  }

  lemma LinkedGrows(h: Address, log: seq<Write>, write: Write)
    requires Linked(h, log) && Known(h, log, write.key, write.batch.previous, |log|)
    ensures Linked(h, log + [write])
  {
    var longer := log + [write];
    forall i: nat | i < |longer| ensures LinkedAt(h, longer, i) {
      assert i < |log| ==> LinkedAt(h, log, i);
      if longer[i].batch.previous != "" {
        WrittenGrows(h, log, [write], longer[i].key, longer[i].batch.previous, i, i);
      }
    }
  }

  lemma CommitKeepsInv(h: Address, w: World, e: Event)
    requires CollisionFree(h) && Inv(h, w) && e.Commit? && e.writer in w.open
    ensures Inv(h, Next(h, w, e))
  {
    var write := w.open[e.writer];
    var v := Next(h, w, e);
    LinkedGrows(h, w.log, write);
    var n := |w.log|;
    forall key, cid | Written(h, w.log, key, cid, n) ensures Written(h, v.log, key, cid, n + 1) {
      WrittenGrows(h, w.log, [write], key, cid, n, n + 1);
    }
    assert v.log[n] == write;
    assert IsWrite(h, v.log[n], write.key, h(write.batch));
    assert Written(h, v.log, write.key, h(write.batch), n + 1);
  }

  lemma StepKeepsInv(h: Address, w: World, e: Event)
    requires CollisionFree(h) && Inv(h, w)
    ensures Inv(h, Next(h, w, e))
    ensures w.log <= Next(h, w, e).log
  {
    if e.Commit? && e.writer in w.open {
      CommitKeepsInv(h, w, e);
    } else if e.Land? && e.which < |w.pending| {
      assert w.pending[e.which] in w.pending;
      var v := Next(h, w, e);
      assert forall p | p in v.pending :: p in w.pending;
    }
  }

  lemma {:induction false} RunKeepsInv(h: Address, events: seq<Event>)
    requires CollisionFree(h)
    ensures Inv(h, Run(h, EMPTY, events))
    decreases |events|
  {
    if events != [] {
      RunKeepsInv(h, events[..|events| - 1]);
      StepKeepsInv(h, Run(h, EMPTY, events[..|events| - 1]), events[|events| - 1]);
    }
  }

  // ------------------------------------------------------------------ chains

  /** The oldest write of this content under this key. */
  ghost function Oldest(h: Address, log: seq<Write>, key: string, cid: string, n: nat): (i: nat)
    requires Written(h, log, key, cid, n)
    ensures i < n && i < |log| && IsWrite(h, log[i], key, cid)
    ensures forall j | 0 <= j < i :: !IsWrite(h, log[j], key, cid)
    decreases n
  {
    if Written(h, log, key, cid, n - 1) then Oldest(h, log, key, cid, n - 1)
    else
      var i :| 0 <= i < n && i < |log| && IsWrite(h, log[i], key, cid);
      i
  }

  /** The positions in the log that a reader visits from a batch of a key. The
      bound decreases along the links, so every walk ends. */
  ghost function Walk(h: Address, log: seq<Write>, key: string, cid: string, n: nat): (r: seq<nat>)
    requires Linked(h, log) && Known(h, log, key, cid, n)
    decreases n
  {
    if cid == "" then []
    else
      var i := Oldest(h, log, key, cid, n);
      assert LinkedAt(h, log, i);
      [i] + Walk(h, log, key, log[i].batch.previous, i)
  }

  lemma {:induction false} WalkShape(h: Address, log: seq<Write>, key: string, cid: string, n: nat)
    requires Linked(h, log) && Known(h, log, key, cid, n)
    ensures var r := Walk(h, log, key, cid, n);
            && (forall a | 0 <= a < |r| :: r[a] < n && r[a] < |log| && log[r[a]].key == key)
            && (forall a, b | 0 <= a < b < |r| :: r[a] > r[b])
            && (r != [] ==> h(log[r[0]].batch) == cid)
            && (forall a | 0 <= a < |r| - 1 :: log[r[a]].batch.previous == h(log[r[a + 1]].batch))
            && (r != [] ==> log[r[|r| - 1]].batch.previous == "")
    decreases n
  {
    if cid != "" {
      var i := Oldest(h, log, key, cid, n);
      assert LinkedAt(h, log, i);
      WalkShape(h, log, key, log[i].batch.previous, i);
      var rest := Walk(h, log, key, log[i].batch.previous, i);
      var r := Walk(h, log, key, cid, n);
      assert r == [i] + rest;
      forall a | 0 <= a < |r| - 1 ensures log[r[a]].batch.previous == h(log[r[a + 1]].batch) {
        if a > 0 {
          assert r[a] == rest[a - 1] && r[a + 1] == rest[a];
        }
      }
    }
  }

  /** No batch is visited twice, not even one whose content was stored twice. */
  lemma {:induction false} WalkDistinct(h: Address, log: seq<Write>, key: string, cid: string, n: nat)
    requires Linked(h, log) && Known(h, log, key, cid, n)
    ensures var r := Walk(h, log, key, cid, n);
            forall a, b | 0 <= a < b < |r| :: r[a] < |log| && r[b] < |log| && log[r[a]].batch != log[r[b]].batch
    decreases n
  {
    WalkShape(h, log, key, cid, n);
    if cid != "" {
      var i := Oldest(h, log, key, cid, n);
      assert LinkedAt(h, log, i);
      var rest := Walk(h, log, key, log[i].batch.previous, i);
      WalkDistinct(h, log, key, log[i].batch.previous, i);
      WalkShape(h, log, key, log[i].batch.previous, i);
      var r := Walk(h, log, key, cid, n);
      assert r == [i] + rest;
      forall a, b | 0 <= a < b < |r| ensures log[r[a]].batch != log[r[b]].batch {
        if a == 0 {
          assert r[b] == rest[b - 1];
          assert !IsWrite(h, log[r[b]], key, cid);
        } else {
          assert r[a] == rest[a - 1] && r[b] == rest[b - 1];
        }
      }
    }
  }

  /** The walk does not depend on the bound, and later writes do not change it. */
  lemma {:induction false} WalkStable(h: Address, log: seq<Write>, more: seq<Write>, key: string, cid: string, n: nat,
                                      m: nat)
    requires Linked(h, log) && Linked(h, log + more)
    requires Known(h, log, key, cid, n) && Known(h, log + more, key, cid, m)
    ensures Walk(h, log, key, cid, n) == Walk(h, log + more, key, cid, m)
    decreases n
  {
    if cid != "" {
      var longer := log + more;
      var i, j := Oldest(h, log, key, cid, n), Oldest(h, longer, key, cid, m);
      assert longer[i] == log[i];
      assert !(i < j);
      assert j < |log| && longer[j] == log[j];
      assert i == j;
      assert LinkedAt(h, log, i) && LinkedAt(h, longer, i);
      WalkStable(h, log, more, key, log[i].batch.previous, i, i);
    }
  }

  /** Safety over whole runs. From the head of any key, in any reachable state,
      a reader meets batches of that key only, each stored, strictly from newer
      to older, none twice, and stops at one that names no other. */
  lemma HeadChain(h: Address, events: seq<Event>, key: string)
    requires CollisionFree(h) && key in Run(h, EMPTY, events).names
    ensures var w := Run(h, EMPTY, events);
            && Inv(h, w)
            && var r := Walk(h, w.log, key, w.names[key], |w.log|);
               && r != []
               && (forall a | 0 <= a < |r| :: r[a] < |w.log| && w.log[r[a]].key == key
                     && h(w.log[r[a]].batch) in w.store && w.store[h(w.log[r[a]].batch)] == w.log[r[a]].batch)
               && (forall a, b | 0 <= a < b < |r| :: r[a] > r[b] && w.log[r[a]].batch != w.log[r[b]].batch)
               && w.log[r[|r| - 1]].batch.previous == ""
  {
    RunKeepsInv(h, events);
    var w := Run(h, EMPTY, events);
    WalkShape(h, w.log, key, w.names[key], |w.log|);
    WalkDistinct(h, w.log, key, w.names[key], |w.log|);
    var i :| 0 <= i < |w.log| && IsWrite(h, w.log[i], key, w.names[key]);
    assert h(w.log[i].batch) != "";
  }

  /** Whatever happens while a reader walks, the chain it is on stays the same. */
  lemma {:induction false} ReadsAreStable(h: Address, w: World, events: seq<Event>, key: string, cid: string)
    requires CollisionFree(h) && Inv(h, w) && Known(h, w.log, key, cid, |w.log|)
    ensures var v := Run(h, w, events);
            && Inv(h, v) && w.log <= v.log && Known(h, v.log, key, cid, |v.log|)
            && Walk(h, v.log, key, cid, |v.log|) == Walk(h, w.log, key, cid, |w.log|)
    decreases |events|
  {
    if events != [] {
      var u := Run(h, w, events[..|events| - 1]);
      ReadsAreStable(h, w, events[..|events| - 1], key, cid);
      StepKeepsInv(h, u, events[|events| - 1]);
      var v := Run(h, w, events);
      var more := v.log[|u.log|..];
      assert v.log == u.log + more;
      if cid != "" {
        WrittenGrows(h, u.log, more, key, cid, |u.log|, |v.log|);
      }
      WalkStable(h, u.log, more, key, cid, |u.log|, |v.log|);
    }
  }
}
