/** The operations on the linked log, as a node performs them on its IPFS client,
    and what a reader gets back. */
module LogNode {
  import opened Wrappers
  import opened Encryption
  import opened LinkedLog

  // ----------------------------------------------------------------- records

  /** How records become entries: JSON, then encryption under the shared seed. */
  datatype Codec<!R> = Codec(suite: Suite, seed: Bytes, marshal: R -> Bytes, unmarshal: Bytes -> Option<R>)

  ghost predicate Faithful<R(!new)>(c: Codec<R>) {
    c.suite.cipher.Correct() && forall r :: c.unmarshal(c.marshal(r)) == Some(r)
  }

  function EncodeEntry<R>(c: Codec<R>, r: R, randomness: int, nonce: Bytes): Entry {
    Encrypted(randomness, NewEncryptData(c.suite, c.seed, randomness, c.marshal(r), nonce))
  }

  /** None: not an entry, not decryptable, or not a record. */
  function DecodeEntry<R>(c: Codec<R>, e: Entry): Option<R> {
    match e
    case Malformed => None
    case Encrypted(randomness, data) =>
      match NewDecryptData(c.suite, c.seed, randomness, data)
      case None => None
      case Some(plain) => c.unmarshal(plain)
  }

  /** The randomness drawn for each record. */
  datatype Draw = Draw(randomness: int, nonce: Bytes)

  function EncodeAll<R>(c: Codec<R>, records: seq<R>, draws: seq<Draw>): seq<Entry>
    requires |draws| == |records|
  {
    if records == [] then []
    else
      var n := |records| - 1;
      EncodeAll(c, records[..n], draws[..n]) + [EncodeEntry(c, records[n], draws[n].randomness, draws[n].nonce)]
  }

  /** What `f` makes of the elements, without those it makes nothing of. */
  function Collect<E, R>(f: E -> Option<R>, s: seq<E>): seq<R> {
    if s == [] then [] else Collect(f, s[..|s| - 1]) + (match f(s[|s| - 1]) case None => [] case Some(r) => [r])
  }

  lemma CollectMore<E, R>(f: E -> Option<R>, s: seq<E>, e: E)
    ensures Collect(f, s + [e]) == Collect(f, s) + (match f(e) case None => [] case Some(r) => [r])
  {
    assert (s + [e])[..|s|] == s;
  }

  lemma {:induction false} CollectConcat<E, R>(f: E -> Option<R>, a: seq<E>, b: seq<E>)
    ensures Collect(f, a + b) == Collect(f, a) + Collect(f, b)
    decreases |b|
  {
    if b == [] {
      assert a + b == a;
    } else {
      CollectConcat(f, a, b[..|b| - 1]);
      assert (a + b)[..|a + b| - 1] == a + b[..|b| - 1];
    }
  }

  lemma {:induction false} CollectNothing<E, R>(f: E -> Option<R>, s: seq<E>)
    requires forall i | 0 <= i < |s| :: f(s[i]) == None
    ensures Collect(f, s) == []
    decreases |s|
  {
    if s != [] {
      CollectNothing(f, s[..|s| - 1]);
    }
  }

  lemma {:induction false} CollectEach<E, R>(f: E -> Option<R>, s: seq<E>, r: seq<R>)
    requires |r| == |s| && forall i | 0 <= i < |s| :: f(s[i]) == Some(r[i])
    ensures Collect(f, s) == r
    decreases |s|
  {
    if s != [] {
      var n := |s| - 1;
      CollectEach(f, s[..n], r[..n]);
      assert r == r[..n] + [r[n]];
    }
  }

  lemma CollectAround<E, R>(f: E -> Option<R>, before: seq<E>, junk: seq<E>, after: seq<E>)
    requires forall i | 0 <= i < |junk| :: f(junk[i]) == None
    ensures Collect(f, before + junk + after) == Collect(f, before) + Collect(f, after)
  {
    CollectNothing(f, junk);
    CollectConcat(f, before, junk);
    AddNothing(Collect(f, before));
    CollectConcat(f, before + junk, after);
  }

  lemma AddNothing<T>(s: seq<T>)
    ensures s + [] == s
  {
  }

  function DecodeAll<R>(c: Codec<R>, entries: seq<Entry>): seq<R> {
    Collect(e => DecodeEntry(c, e), entries)
  }

  lemma {:induction false} EncodedAt<R>(c: Codec<R>, records: seq<R>, draws: seq<Draw>)
    requires |draws| == |records|
    ensures |EncodeAll(c, records, draws)| == |records|
    ensures forall i | 0 <= i < |records| ::
              EncodeAll(c, records, draws)[i] == EncodeEntry(c, records[i], draws[i].randomness, draws[i].nonce)
    decreases |records|
  {
    if records != [] {
      EncodedAt(c, records[..|records| - 1], draws[..|records| - 1]);
    }
  }

  lemma EntryDecodes<R(!new)>(c: Codec<R>, r: R, draw: Draw)
    requires Faithful(c) && |draw.nonce| == NONCE_SIZE
    ensures DecodeEntry(c, EncodeEntry(c, r, draw.randomness, draw.nonce)) == Some(r)
  {
    EntryRoundTrip(c.suite, c.seed, draw.randomness, c.marshal(r), draw.nonce);
  }

  /** What is encrypted is read back, in order. */
  lemma DecodeEncoded<R(!new)>(c: Codec<R>, records: seq<R>, draws: seq<Draw>)
    requires Faithful(c) && |draws| == |records| && forall i | 0 <= i < |draws| :: |draws[i].nonce| == NONCE_SIZE
    ensures DecodeAll(c, EncodeAll(c, records, draws)) == records
  {
    EncodedAt(c, records, draws);
    forall i | 0 <= i < |records| ensures DecodeEntry(c, EncodeAll(c, records, draws)[i]) == Some(records[i]) {
      EntryDecodes(c, records[i], draws[i]);
    }
    CollectEach(e => DecodeEntry(c, e), EncodeAll(c, records, draws), records);
  }

  /** Entries that do not decode vanish and disturb nothing around them. */
  lemma JunkIsSkipped<R>(c: Codec<R>, before: seq<Entry>, junk: seq<Entry>, after: seq<Entry>)
    requires forall i | 0 <= i < |junk| :: DecodeEntry(c, junk[i]) == None
    ensures DecodeAll(c, before + junk + after) == DecodeAll(c, before) + DecodeAll(c, after)
  {
    CollectAround(e => DecodeEntry(c, e), before, junk, after);
  }

  // --------------------------------------------------------------- reading

  ghost function DecodeWalk<R>(c: Codec<R>, log: seq<Write>, walk: seq<nat>): seq<R>
    requires forall a | 0 <= a < |walk| :: walk[a] < |log|
  {
    if walk == [] then [] else DecodeAll(c, log[walk[0]].batch.entries) + DecodeWalk(c, log, walk[1..])
  }

  /** A read of a walk: None when some batch cannot be fetched. */
  ghost function ReadWalk<R>(h: Address, c: Codec<R>, log: seq<Write>, walk: seq<nat>,
                             reachable: set<string>): Option<seq<R>> {
    if walk == [] then Some([])
    else if walk[0] >= |log| || h(log[walk[0]].batch) !in reachable then None
    else Prepend(DecodeAll(c, log[walk[0]].batch.entries), ReadWalk(h, c, log, walk[1..], reachable))
  }

  function Prepend<R>(a: seq<R>, o: Option<seq<R>>): Option<seq<R>> {
    match o
    case None => None
    case Some(b) => Some(a + b)
  }

  lemma PrependTwice<R>(a: seq<R>, b: seq<R>, o: Option<seq<R>>)
    ensures Prepend(a, Prepend(b, o)) == Prepend(a + b, o)
  {
    if o.Some? {
      assert a + (b + o.value) == a + b + o.value;
    }
  }

  lemma PrependNothing<R>(o: Option<seq<R>>)
    ensures Prepend([], o) == o
  {
    if o.Some? {
      assert [] + o.value == o.value;
    }
  }

  lemma ReadWalkCons<R>(h: Address, c: Codec<R>, log: seq<Write>, i: nat, rest: seq<nat>, reachable: set<string>)
    requires i < |log|
    ensures ReadWalk(h, c, log, [i] + rest, reachable)
         == if h(log[i].batch) !in reachable then None
            else Prepend(DecodeAll(c, log[i].batch.entries), ReadWalk(h, c, log, rest, reachable))
  {
    assert ([i] + rest)[1..] == rest;
  }

  /** A read succeeds exactly when every batch of the walk can be fetched, and
      then it has the records of all of them. */
  lemma {:induction false} ReadIsDecode<R>(h: Address, c: Codec<R>, log: seq<Write>, walk: seq<nat>,
                                           reachable: set<string>)
    requires forall a | 0 <= a < |walk| :: walk[a] < |log|
    ensures ReadWalk(h, c, log, walk, reachable)
         == if forall a | 0 <= a < |walk| :: h(log[walk[a]].batch) in reachable
            then Some(DecodeWalk(c, log, walk)) else None
  {
    if walk != [] {
      ReadIsDecode(h, c, log, walk[1..], reachable);
      assert forall a | 0 < a < |walk| :: walk[a] == walk[1..][a - 1];
      assert forall a | 0 <= a < |walk| - 1 :: walk[1..][a] == walk[a + 1];
    }
  }

  // -------------------------------------------------------------------- node

  datatype LogError = NoKey | NoHead | FetchFailed | NoStruct

  function FromRead<R>(o: Option<seq<R>>): Result<seq<R>, LogError> {
    match o
    case Some(rs) => Ok(rs)
    case None => Err(FetchFailed)
  }

  class Ipfs {
    const h: Address
    var store: map<string, Batch>
    var names: map<string, string>
    var pending: seq<Publication>
    ghost var open: map<int, Write>
    ghost var log: seq<Write>

    ghost function View(): World
      reads this
    {
      World(store, names, pending, open, log)
    }

    constructor (h: Address)
      ensures this.h == h && View() == EMPTY
    {
      this.h := h;
      store, names, pending, open, log := map[], map[], [], map[], [];
    }

    method RetrieveFromIPNS(key: string, timely: bool) returns (cid: string)
      ensures cid == Resolve(View(), key, timely)
    {
      if timely && key in names {
        return names[key];
      }
      cid := "";
    }

    method UploadToIPFS(batch: Batch) returns (cid: string)
      modifies this`store
      ensures cid == h(batch) && store == old(store)[cid := batch]
    {
      cid := h(batch);
      store := store[cid := batch];
    }

    /** A timeout counts as success; the publish stays on its way. */
    method UploadToIPNS(cid: string, key: string, how: Outcome) returns (ok: bool)
      modifies this`names, this`pending
      ensures ok == (how != Refused)
      ensures names == if how == Prompt then old(names)[key := cid] else old(names)
      ensures pending == if how == Late then old(pending) + [Publication(key, cid)] else old(pending)
    {
      match how {
        case Prompt => names := names[key := cid];
        case Late => pending := pending + [Publication(key, cid)];
        case Refused =>
      }
      ok := how != Refused;
    }

    /** Encrypts the records into a batch on top of the resolved head, stores it
        and publishes it. `records` is None when the file does not parse;
        `uploads` is false when the store refuses the batch. */
    method EncryptAndUploadLinkedBytes<R>(c: Codec<R>, records: Option<seq<R>>, draws: seq<Draw>, key: string,
                                          timely: bool, uploads: bool, how: Outcome, ghost writer: int)
      requires records.Some? ==> |draws| == |records.value|
      requires writer !in open
      modifies this
      ensures key == "" || records == None || !uploads ==> View() == old(View())
      ensures key != "" && records.Some? && uploads ==>
        View() == Next(h, Next(h, old(View()), Start(writer, key, EncodeAll(c, records.value, draws), timely)),
                       Commit(writer, how))
    {
      if key == "" || records == None {
        return;
      }
      var rs := records.value;
      var encryptedEntries := [];
      for i := 0 to |rs|
        invariant encryptedEntries == EncodeAll(c, rs[..i], draws[..i])
      {
        assert rs[..i + 1][..i] == rs[..i] && draws[..i + 1][..i] == draws[..i];
        var encrypted := NewEncryptData(c.suite, c.seed, draws[i].randomness, c.marshal(rs[i]), draws[i].nonce);
        encryptedEntries := encryptedEntries + [Encrypted(draws[i].randomness, encrypted)];
      }
      assert rs[..|rs|] == rs && draws[..|rs|] == draws;
      var prevCID := RetrieveFromIPNS(key, timely);
      var batch := Batch(prevCID, encryptedEntries);
      if !uploads {
        return;
      }
      var cid := UploadToIPFS(batch);
      log := log + [Write(key, batch)];
      var ok := UploadToIPNS(cid, key, how);
      assert open == (open[writer := Write(key, batch)]) - {writer};
    }

    /** Walks from the head to the first batch and decodes what it can.
        `reachable` are the addresses whose content can be fetched. */
    method DecryptLinkedLog<R>(c: Codec<R>, key: string, timely: bool, known: bool, reachable: set<string>)
      returns (r: Result<seq<R>, LogError>)
      requires Inv(h, View())
      ensures key == "" ==> r == Err(NoKey)
      ensures key != "" && Resolve(View(), key, timely) == "" ==> r == Err(NoHead)
      ensures key != "" && Resolve(View(), key, timely) != "" ==>
        r == if known then FromRead(ReadWalk(h, c, log, Walk(h, log, key, names[key], |log|), reachable))
             else Err(NoStruct)
    {
      if key == "" {
        return Err(NoKey);
      }
      var cid := RetrieveFromIPNS(key, timely);
      if cid == "" {
        return Err(NoHead);
      }
      if !known {
        return Err(NoStruct);
      }
      r := ReadChain(c, key, cid, reachable);
    }

    method ReadChain<R>(c: Codec<R>, ghost key: string, head: string, reachable: set<string>)
      returns (r: Result<seq<R>, LogError>)
      requires Inv(h, View()) && Known(h, log, key, head, |log|)
      ensures r == FromRead(ReadWalk(h, c, log, Walk(h, log, key, head, |log|), reachable))
    {
      var cid, results := head, [];
      ghost var bound: nat := |log|;
      ghost var all := ReadWalk(h, c, log, Walk(h, log, key, head, |log|), reachable);
      PrependNothing(all);
      while cid != ""
        invariant Known(h, log, key, cid, bound)
        invariant all == Prepend(results, ReadWalk(h, c, log, Walk(h, log, key, cid, bound), reachable))
        decreases bound
      {
        ghost var i := Oldest(h, log, key, cid, bound);
        assert LinkedAt(h, log, i);
        ghost var rest := Walk(h, log, key, log[i].batch.previous, i);
        assert Walk(h, log, key, cid, bound) == [i] + rest;
        ReadWalkCons(h, c, log, i, rest, reachable);
        if cid !in reachable {
          return Err(FetchFailed);
        }
        var batch := store[cid];
        var plain := DecodeEntries(c, batch.entries);
        ghost var before := results;
        results := results + plain;
        PrependTwice(before, plain, ReadWalk(h, c, log, rest, reachable));
        cid := batch.previous;
        bound := i;
      }
      assert results + [] == results;
      r := Ok(results);
    }

    method DecodeEntries<R>(c: Codec<R>, entries: seq<Entry>) returns (results: seq<R>)
      ensures results == DecodeAll(c, entries)
    {
      results := [];
      for i := 0 to |entries|
        invariant results == DecodeAll(c, entries[..i])
      {
        assert entries[..i + 1] == entries[..i] + [entries[i]];
        CollectMore(e => DecodeEntry(c, e), entries[..i], entries[i]);
        match DecodeEntry(c, entries[i]) {
          case None =>
          case Some(record) => results := results + [record];
        }
      }
      assert entries[..|entries|] == entries;
    }
  }

  // --------------------------------------------------------------- exactness

  /** A write whose publish is in time. */
  datatype Put = Put(key: string, entries: seq<Entry>, timely: bool)

  ghost function AfterPut(h: Address, w: World, p: Put): World {
    Next(h, Next(h, w, Start(0, p.key, p.entries, p.timely)), Commit(0, Prompt))
  }

  ghost function AfterPuts(h: Address, puts: seq<Put>): World {
    if puts == [] then EMPTY else AfterPut(h, AfterPuts(h, puts[..|puts| - 1]), puts[|puts| - 1])
  }

  /** The records of a key from the newest batch down to the last one whose
      resolve found no head. */
  ghost function Expected<R>(c: Codec<R>, puts: seq<Put>, key: string): seq<R> {
    if puts == [] then []
    else
      var last, rest := puts[|puts| - 1], Expected(c, puts[..|puts| - 1], key);
      if last.key != key then rest
      else DecodeAll(c, last.entries) + (if last.timely then rest else [])
  }

  lemma {:induction false} PutsInv(h: Address, puts: seq<Put>)
    requires CollisionFree(h)
    ensures Inv(h, AfterPuts(h, puts)) && AfterPuts(h, puts).open == map[]
    decreases |puts|
  {
    if puts != [] {
      var n := |puts| - 1;
      PutsInv(h, puts[..n]);
      var u := AfterPuts(h, puts[..n]);
      var started := Next(h, u, Start(0, puts[n].key, puts[n].entries, puts[n].timely));
      StepKeepsInv(h, u, Start(0, puts[n].key, puts[n].entries, puts[n].timely));
      StepKeepsInv(h, started, Commit(0, Prompt));
    }
  }

  lemma {:induction false} DecodeWalkGrows<R>(c: Codec<R>, log: seq<Write>, more: seq<Write>, walk: seq<nat>)
    requires forall a | 0 <= a < |walk| :: walk[a] < |log|
    ensures DecodeWalk(c, log, walk) == DecodeWalk(c, log + more, walk)
  {
    if walk != [] {
      DecodeWalkGrows(c, log, more, walk[1..]);
    }
  }

  /** The walk from `cid` stays in the log and decodes to the records. */
  ghost predicate Walks<R>(h: Address, c: Codec<R>, log: seq<Write>, key: string, cid: string, n: nat, records: seq<R>)
    requires Linked(h, log) && Known(h, log, key, cid, n)
  {
    var walk := Walk(h, log, key, cid, n);
    (forall a | 0 <= a < |walk| :: walk[a] < |log|) && DecodeWalk(c, log, walk) == records
  }

  /** What a reader of `key` decodes in a state, if the key has a head. */
  ghost predicate Reads<R>(h: Address, c: Codec<R>, w: World, key: string, records: seq<R>) {
    Inv(h, w) && key in w.names && Walks(h, c, w.log, key, w.names[key], |w.log|, records)
  }

  /** The write that a put makes. */
  ghost function WriteOf(u: World, p: Put): Write {
    Write(p.key, Batch(Resolve(u, p.key, p.timely), p.entries))
  }

  lemma PutShape(h: Address, u: World, p: Put)
    requires u.open == map[]
    ensures AfterPut(h, u, p).log == u.log + [WriteOf(u, p)]
    ensures AfterPut(h, u, p).names == u.names[p.key := h(WriteOf(u, p).batch)]
  {
  }

  /** A walk in a longer log. */
  lemma WalkGrows<R>(h: Address, c: Codec<R>, log: seq<Write>, write: Write, key: string, cid: string, n: nat, m: nat)
    requires Linked(h, log) && Linked(h, log + [write])
    requires Known(h, log, key, cid, n) && Known(h, log + [write], key, cid, m)
    ensures var walk := Walk(h, log, key, cid, n);
            && walk == Walk(h, log + [write], key, cid, m)
            && (forall a | 0 <= a < |walk| :: walk[a] < |log|)
            && DecodeWalk(c, log + [write], walk) == DecodeWalk(c, log, walk)
  {
    WalkStable(h, log, [write], key, cid, n, m);
    WalkShape(h, log, key, cid, n);
    DecodeWalkGrows(c, log, [write], Walk(h, log, key, cid, n));
  }

  /** The walk from the last write: that write, and then the walk from what it names. */
  lemma LastWalk(h: Address, log: seq<Write>, write: Write)
    requires CollisionFree(h) && Linked(h, log + [write])
    ensures var longer, n := log + [write], |log|;
            && Known(h, longer, write.key, h(write.batch), n + 1)
            && var walk := Walk(h, longer, write.key, h(write.batch), n + 1);
               exists i :: 0 <= i <= n && longer[i].batch == write.batch
                        && Known(h, longer, write.key, write.batch.previous, i)
                        && walk == [i] + Walk(h, longer, write.key, write.batch.previous, i)
  {
    var longer, n := log + [write], |log|;
    assert IsWrite(h, longer[n], write.key, h(write.batch));
    var i := Oldest(h, longer, write.key, h(write.batch), n + 1);
    assert longer[i].batch == write.batch;
    assert LinkedAt(h, longer, i);
  }

  /** What the batch of a put is put on top of. */
  lemma RestReads<R>(h: Address, c: Codec<R>, u: World, p: Put, old_: seq<R>)
    requires Inv(h, u)
    requires p.key in u.names ==> Reads(h, c, u, p.key, old_)
    ensures var previous := Resolve(u, p.key, p.timely);
            && Known(h, u.log, p.key, previous, |u.log|)
            && Walks(h, c, u.log, p.key, previous, |u.log|, if p.timely && p.key in u.names then old_ else [])
  {
  }

  /** `w` is the state after a put, as far as reading goes. */
  ghost predicate IsAfterPut(h: Address, u: World, p: Put, w: World) {
    && w.log == u.log + [WriteOf(u, p)]
    && w.names == u.names[p.key := h(WriteOf(u, p).batch)]
    && Inv(h, u) && Inv(h, w)
  }

  lemma PutReads<R>(h: Address, c: Codec<R>, u: World, p: Put, w: World, old_: seq<R>)
    requires CollisionFree(h) && IsAfterPut(h, u, p, w)
    requires p.key in u.names ==> Reads(h, c, u, p.key, old_)
    ensures Reads(h, c, w, p.key, DecodeAll(c, p.entries) + (if p.timely && p.key in u.names then old_ else []))
  {
    RestReads(h, c, u, p, old_);
    var write := WriteOf(u, p);
    assert write.key == p.key && write.batch.entries == p.entries;
    assert write.batch.previous == Resolve(u, p.key, p.timely);
    assert w.names[p.key] == h(write.batch) && |w.log| == |u.log| + 1;
    LogReads(h, c, u.log, WriteOf(u, p), if p.timely && p.key in u.names then old_ else []);
  }

  /** What is decoded from the last write of a log. */
  lemma LogReads<R>(h: Address, c: Codec<R>, log: seq<Write>, write: Write, rest: seq<R>)
    requires CollisionFree(h) && Linked(h, log) && Linked(h, log + [write])
    requires Known(h, log, write.key, write.batch.previous, |log|)
    requires Walks(h, c, log, write.key, write.batch.previous, |log|, rest)
    ensures Known(h, log + [write], write.key, h(write.batch), |log| + 1)
    ensures Walks(h, c, log + [write], write.key, h(write.batch), |log| + 1, DecodeAll(c, write.batch.entries) + rest)
  {
    LastWalk(h, log, write);
    var longer, n, previous := log + [write], |log|, write.batch.previous;
    var walk := Walk(h, longer, write.key, h(write.batch), n + 1);
    var i :| 0 <= i <= n && longer[i].batch == write.batch && Known(h, longer, write.key, previous, i)
          && walk == [i] + Walk(h, longer, write.key, previous, i);
    WalkGrows(h, c, log, write, write.key, previous, n, i);
    DecodeWalkFirst(c, longer, i, Walk(h, longer, write.key, previous, i));
  }

  lemma DecodeWalkFirst<R>(c: Codec<R>, log: seq<Write>, i: nat, rest: seq<nat>)
    requires i < |log| && forall a | 0 <= a < |rest| :: rest[a] < |log|
    ensures DecodeWalk(c, log, [i] + rest) == DecodeAll(c, log[i].batch.entries) + DecodeWalk(c, log, rest)
  {
    assert ([i] + rest)[1..] == rest;
  }

  lemma OtherKeyReads<R>(h: Address, c: Codec<R>, u: World, p: Put, w: World, key: string, old_: seq<R>)
    requires CollisionFree(h) && IsAfterPut(h, u, p, w)
    requires key != p.key && Reads(h, c, u, key, old_)
    ensures Reads(h, c, w, key, old_)
  {
    WrittenGrows(h, u.log, [WriteOf(u, p)], key, u.names[key], |u.log|, |u.log| + 1);
    WalkGrows(h, c, u.log, WriteOf(u, p), key, u.names[key], |u.log|, |u.log| + 1);
  }

  /** The records are what a reader of `key` gets; without a head there are none. */
  ghost predicate KeyHolds<R>(h: Address, c: Codec<R>, w: World, key: string, records: seq<R>) {
    (key in w.names ==> Reads(h, c, w, key, records)) && (key !in w.names ==> records == [])
  }

  lemma PutHolds<R>(h: Address, c: Codec<R>, u: World, p: Put, w: World, key: string, old_: seq<R>)
    requires CollisionFree(h) && IsAfterPut(h, u, p, w)
    requires KeyHolds(h, c, u, key, old_)
    ensures KeyHolds(h, c, w, key,
                     if key == p.key then DecodeAll(c, p.entries) + (if p.timely then old_ else []) else old_)
    ensures key in w.names <==> key in u.names || key == p.key
  {
    if key == p.key {
      PutReads(h, c, u, p, w, old_);
    } else if key in u.names {
      OtherKeyReads(h, c, u, p, w, key, old_);
    }
  }

  /** With prompt publishes the log is exact: after any sequence of writes to any
      keys, reading a key gives its batches from the newest back to the last one
      whose resolve came back empty, each decoded in its own order. */
  lemma {:induction false} LogExact<R>(h: Address, c: Codec<R>, puts: seq<Put>, key: string)
    requires CollisionFree(h)
    ensures key in AfterPuts(h, puts).names <==> exists i :: 0 <= i < |puts| && puts[i].key == key
    ensures KeyHolds(h, c, AfterPuts(h, puts), key, Expected(c, puts, key))
    decreases |puts|
  {
    if puts != [] {
      var n := |puts| - 1;
      LogExact(h, c, puts[..n], key);
      PutsInv(h, puts[..n]);
      PutsInv(h, puts);
      PutShape(h, AfterPuts(h, puts[..n]), puts[n]);
      PutHolds(h, c, AfterPuts(h, puts[..n]), puts[n], AfterPuts(h, puts), key, Expected(c, puts[..n], key));
      PutsKeys(puts, key);
    }
  }

  lemma PutsKeys(puts: seq<Put>, key: string)
    requires puts != []
    ensures var n := |puts| - 1;
            (exists i :: 0 <= i < |puts| && puts[i].key == key)
            <==> puts[n].key == key || exists i :: 0 <= i < n && puts[..n][i].key == key
  {
    var n := |puts| - 1;
    if i :| 0 <= i < n && puts[i].key == key {
      assert puts[..n][i].key == key;
    }
  }
}
