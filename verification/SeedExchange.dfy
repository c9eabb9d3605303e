/** The seed exchange of the two CCUs. Each one's seed file persists; POSTs travel
    between them and may be delivered, refused or lost, in any order. */
module SeedExchange {
  import opened Wrappers
  import opened Encryption

  type Seed = Bytes

  datatype Side = Ccu1 | Ccu2

  function Peer(c: Side): Side {
    if c == Ccu1 then Ccu2 else Ccu1
  }

  datatype Post = Post(to: Side, seed: Seed)

  /** `generated` and `stored` record the past: the seeds each side generated, and the
      posts whose seed was stored. */
  datatype World = World(
    file1: Option<Seed>,
    file2: Option<Seed>,
    exchanging1: bool,
    exchanging2: bool,
    flight: seq<Post>,
    generated: seq<Post>,
    stored: seq<Post>)

  function File(w: World, c: Side): Option<Seed> {
    if c == Ccu1 then w.file1 else w.file2
  }

  function SetFile(w: World, c: Side, s: Seed): World {
    if c == Ccu1 then w.(file1 := Some(s)) else w.(file2 := Some(s))
  }

  predicate Exchanging(w: World, c: Side) {
    if c == Ccu1 then w.exchanging1 else w.exchanging2
  }

  datatype Event =
    | Mode(side: Side, exchanging: bool)        // started or stopped in exchange mode
    | Send(side: Side, random: Seed)            // one attempt to send a seed
    | Arrive(index: nat, attested: bool)        // a post reaches the peer
    | Lose(index: nat)

  predicate Fresh(w: World, s: Seed) {
    s != [] && forall i | 0 <= i < |w.generated| :: w.generated[i].seed != s
  }

  predicate Enabled(w: World, e: Event) {
    match e
    case Mode(_, _) => true
    case Send(_, s) => Fresh(w, s)
    case Arrive(i, _) => i < |w.flight|
    case Lose(i) => i < |w.flight|
  }

  function Without(s: seq<Post>, i: nat): seq<Post>
    requires i < |s|
  {
    s[..i] + s[i + 1..]
  }

  /** A generated seed is written before it is posted; an existing one is neither
      replaced nor posted again. An arriving seed replaces whatever was there. */
  function Next(w: World, e: Event): World
    requires Enabled(w, e)
  {
    match e
    case Mode(c, x) => if c == Ccu1 then w.(exchanging1 := x) else w.(exchanging2 := x)
    case Send(c, s) =>
      if File(w, c).Some? then w
      else SetFile(w, c, s).(flight := w.flight + [Post(Peer(c), s)], generated := w.generated + [Post(Peer(c), s)])
    case Arrive(i, attested) =>
      var p := w.flight[i];
      var v := w.(flight := Without(w.flight, i));
      if Exchanging(w, p.to) && attested && p.seed != [] then SetFile(v, p.to, p.seed).(stored := w.stored + [p]) else v
    case Lose(i) => w.(flight := Without(w.flight, i))
  }

  const START: World := World(None, None, false, false, [], [], [])

  ghost predicate Run(w: World, events: seq<Event>, v: World)
    decreases |events|
  {
    if events == [] then w == v else Enabled(w, events[0]) && Run(Next(w, events[0]), events[1..], v)
  }

  // ---------------------------------------------------------------- invariant

  function CountTo(posts: seq<Post>, c: Side): nat {
    if posts == [] then 0 else CountTo(posts[..|posts| - 1], c) + (if posts[|posts| - 1].to == c then 1 else 0)
  }

  /** At most one post to each side was ever generated, and it is in one place. */
  predicate Counted(generated: seq<Post>, flight: seq<Post>, stored: seq<Post>, c: Side) {
    CountTo(generated, c) <= 1 && CountTo(flight, c) + CountTo(stored, c) <= CountTo(generated, c)
  }

  /** What a side's file holds: the seed that was stored for it, or else the one it
      generated, or else nothing. */
  ghost predicate FileFits(file: Option<Seed>, generated: seq<Post>, stored: seq<Post>, c: Side) {
    && (forall i | 0 <= i < |stored| :: stored[i].to == c ==> file == Some(stored[i].seed))
    && (CountTo(stored, c) == 0 ==>
          && (forall i | 0 <= i < |generated| :: generated[i].to == Peer(c) ==> file == Some(generated[i].seed))
          && (CountTo(generated, Peer(c)) == 0 ==> file == None))
  }

  ghost predicate FileExplained(w: World, c: Side) {
    Counted(w.generated, w.flight, w.stored, c) && FileFits(File(w, c), w.generated, w.stored, c)
  }

  predicate PostKnown(p: Post, generated: seq<Post>) {
    p in generated && p.seed != []
  }

  predicate PostsKnown(w: World) {
    && (forall i | 0 <= i < |w.flight| :: PostKnown(w.flight[i], w.generated))
    && (forall i | 0 <= i < |w.stored| :: w.stored[i] in w.generated)
    && (forall i, j | 0 <= i < j < |w.generated| :: w.generated[i].seed != w.generated[j].seed)
  }

  ghost predicate Inv(w: World) {
    FileExplained(w, Ccu1) && FileExplained(w, Ccu2) && PostsKnown(w)
  }

  lemma CountMore(posts: seq<Post>, p: Post, c: Side)
    ensures CountTo(posts + [p], c) == CountTo(posts, c) + if p.to == c then 1 else 0
  {
    assert (posts + [p])[..|posts|] == posts;
  }

  lemma {:induction false} CountWithout(posts: seq<Post>, i: nat, c: Side)
    requires i < |posts|
    ensures CountTo(Without(posts, i), c) + (if posts[i].to == c then 1 else 0) == CountTo(posts, c)
    decreases |posts|
  {
    var n := |posts| - 1;
    if i == n {
      assert Without(posts, i) == posts[..n];
    } else {
      CountWithout(posts[..n], i, c);
      assert Without(posts, i) == Without(posts[..n], i) + [posts[n]];
      CountMore(Without(posts[..n], i), posts[n], c);
    }
  }

  lemma {:induction false} CountPositive(posts: seq<Post>, c: Side)
    ensures CountTo(posts, c) > 0 <==> exists i :: 0 <= i < |posts| && posts[i].to == c
  {
    if posts != [] {
      CountPositive(posts[..|posts| - 1], c);
    }
  }

  lemma NoneGenerated(w: World, c: Side)
    requires Inv(w) && File(w, c) == None
    ensures CountTo(w.generated, Peer(c)) == 0 && CountTo(w.stored, c) == 0
  {
    CountPositive(w.generated, Peer(c));
    CountPositive(w.stored, c);
  }

  /** A first seed is generated: the sender's own file. */
  lemma GenerateFits(generated: seq<Post>, stored: seq<Post>, c: Side, s: Seed)
    requires CountTo(generated, Peer(c)) == 0 && CountTo(stored, c) == 0
    ensures FileFits(Some(s), generated + [Post(Peer(c), s)], stored, c)
  {
    CountPositive(generated, Peer(c));
    CountPositive(stored, c);
    CountMore(generated, Post(Peer(c), s), Peer(c));
  }

  /** The same for the file of the peer, which does not change. */
  lemma GenerateKeeps(file: Option<Seed>, generated: seq<Post>, stored: seq<Post>, c: Side, s: Seed)
    requires FileFits(file, generated, stored, c)
    ensures FileFits(file, generated + [Post(c, s)], stored, c)
  {
    CountMore(generated, Post(c, s), Peer(c));
  }

  lemma GenerateCounted(generated: seq<Post>, flight: seq<Post>, stored: seq<Post>, p: Post, c: Side)
    requires Counted(generated, flight, stored, c) && CountTo(generated, p.to) == 0
    ensures Counted(generated + [p], flight + [p], stored, c)
  {
    CountMore(generated, p, c);
    CountMore(flight, p, c);
  }

  lemma SendStep(w: World, c0: Side, s: Seed, c: Side)
    requires FileExplained(w, c) && CountTo(w.generated, Peer(c0)) == 0 && CountTo(w.stored, c0) == 0
    requires Enabled(w, Send(c0, s)) && File(w, c0) == None
    ensures FileExplained(Next(w, Send(c0, s)), c)
  {
    GenerateCounted(w.generated, w.flight, w.stored, Post(Peer(c0), s), c);
    if c == c0 {
      GenerateFits(w.generated, w.stored, c, s);
    } else {
      GenerateKeeps(File(w, c), w.generated, w.stored, c, s);
    }
  }

  lemma DropCounted(generated: seq<Post>, flight: seq<Post>, stored: seq<Post>, i: nat, c: Side)
    requires i < |flight| && Counted(generated, flight, stored, c)
    ensures Counted(generated, Without(flight, i), stored, c)
    ensures flight[i].to == c ==> CountTo(Without(flight, i), c) + CountTo(stored, c) + 1 <= CountTo(generated, c)
  {
    CountWithout(flight, i, c);
  }

  lemma DropStep(w: World, i: nat, c: Side)
    requires Inv(w) && i < |w.flight|
    ensures FileExplained(w.(flight := Without(w.flight, i)), c)
    ensures var p := w.flight[i]; var v := w.(flight := Without(w.flight, i));
            CountTo(v.flight, p.to) + CountTo(v.stored, p.to) + 1 <= CountTo(v.generated, p.to)
  {
    assert FileExplained(w, c) && FileExplained(w, w.flight[i].to);
    DropCounted(w.generated, w.flight, w.stored, i, c);
    DropCounted(w.generated, w.flight, w.stored, i, w.flight[i].to);
  }

  lemma StoreStep(v: World, p: Post, c: Side)
    requires FileExplained(v, c) && CountTo(v.generated, p.to) <= 1
    requires CountTo(v.flight, p.to) + CountTo(v.stored, p.to) + 1 <= CountTo(v.generated, p.to)
    ensures FileExplained(SetFile(v, p.to, p.seed).(stored := v.stored + [p]), c)
  {
    CountMore(v.stored, p, c);
    CountPositive(v.stored, c);
  }

  lemma ArriveStep(w: World, i: nat, attested: bool, c: Side)
    requires Inv(w) && i < |w.flight|
    ensures FileExplained(Next(w, Arrive(i, attested)), c)
  {
    var p := w.flight[i];
    DropStep(w, i, c);
    assert FileExplained(w, p.to);
    StoreStep(w.(flight := Without(w.flight, i)), p, c);
  }

  lemma WithoutKnown(flight: seq<Post>, j: nat, generated: seq<Post>)
    requires j < |flight| && forall i | 0 <= i < |flight| :: PostKnown(flight[i], generated)
    ensures var v := Without(flight, j); forall i | 0 <= i < |v| :: PostKnown(v[i], generated)
  {
    var v := Without(flight, j);
    forall i | 0 <= i < |v| ensures PostKnown(v[i], generated) {
      assert v[i] == flight[if i < j then i else i + 1];
    }
  }

  lemma MoreKnown(flight: seq<Post>, p: Post, generated: seq<Post>)
    requires p.seed != [] && forall i | 0 <= i < |flight| :: PostKnown(flight[i], generated)
    ensures forall i | 0 <= i < |flight + [p]| :: PostKnown((flight + [p])[i], generated + [p])
  {
  }

  lemma KnownStep(w: World, e: Event)
    requires PostsKnown(w) && Enabled(w, e)
    ensures PostsKnown(Next(w, e))
  {
    if e.Send? {
      MoreKnown(w.flight, Post(Peer(e.side), e.random), w.generated);
    } else if e.Arrive? || e.Lose? {
      WithoutKnown(w.flight, e.index, w.generated);
      assert PostKnown(w.flight[e.index], w.generated);
    }
  }

  lemma ModeStep(w: World, side: Side, exchanging: bool, c: Side)
    requires FileExplained(w, c)
    ensures FileExplained(Next(w, Mode(side, exchanging)), c)
  {
  }

  lemma LoseStep(w: World, i: nat, c: Side)
    requires Inv(w) && i < |w.flight|
    ensures FileExplained(Next(w, Lose(i)), c)
  {
    DropStep(w, i, c);
  }

  lemma SendAnyStep(w: World, c0: Side, s: Seed, c: Side)
    requires Inv(w) && Enabled(w, Send(c0, s))
    ensures FileExplained(Next(w, Send(c0, s)), c)
  {
    if File(w, c0) == None {
      NoneGenerated(w, c0);
      SendStep(w, c0, s, c);
    }
  }

  lemma FileStep(w: World, e: Event, c: Side)
    requires Inv(w) && Enabled(w, e)
    ensures FileExplained(Next(w, e), c)
  {
    if e.Send? {
      SendAnyStep(w, e.side, e.random, c);
    } else if e.Arrive? {
      ArriveStep(w, e.index, e.attested, c);
    } else if e.Lose? {
      LoseStep(w, e.index, c);
    } else {
      ModeStep(w, e.side, e.exchanging, c);
    }
  }

  lemma NextInv(w: World, e: Event)
    requires Inv(w) && Enabled(w, e)
    ensures Inv(Next(w, e))
  {
    KnownStep(w, e);
    FileStep(w, e, Ccu1);
    FileStep(w, e, Ccu2);
  }

  lemma {:induction false} RunInv(w: World, events: seq<Event>, v: World)
    requires Inv(w) && Run(w, events, v)
    ensures Inv(v)
    decreases |events|
  {
    if events != [] {
      NextInv(w, events[0]);
      RunInv(Next(w, events[0]), events[1..], v);
    }
  }

  // -------------------------------------------------------------- main results

  /** In every run each side generates at most one seed. */
  lemma OneSeedEach(events: seq<Event>, w: World, c: Side)
    requires Run(START, events, w)
    ensures CountTo(w.generated, Peer(c)) <= 1
  {
    RunInv(START, events, w);
  }

  /** A post whose seed is stored leaves the receiver with the seed that its peer
      generated. */
  lemma StoredIsSenders(events: seq<Event>, w: World, i: nat, attested: bool)
    requires Run(START, events, w) && i < |w.flight|
    ensures var p, v := w.flight[i], Next(w, Arrive(i, attested));
            Exchanging(w, p.to) && attested ==> File(v, p.to) == Some(p.seed) && p in v.generated
  {
    RunInv(START, events, w);
  }

  predicate Agreed(w: World) {
    w.file1.Some? && w.file1 == w.file2
  }

  /** Both hold the same seed and nothing else is on its way. */
  predicate Settled(w: World) {
    Agreed(w) && forall i | 0 <= i < |w.flight| :: w.flight[i].seed == w.file1.value
  }

  lemma SettledStep(w: World, e: Event)
    requires Settled(w) && Enabled(w, e)
    ensures var v := Next(w, e); Settled(v) && v.file1 == w.file1
  {
    var v := Next(w, e);
    if e.Arrive? || e.Lose? {
      forall i | 0 <= i < |v.flight| ensures v.flight[i].seed == w.file1.value {
        assert v.flight[i] == w.flight[if i < e.index then i else i + 1];
      }
    }
  }

  /** Agreement is stable: once both sides hold the same seed and no other seed is in
      flight, that stays so in every run. */
  lemma {:induction false} AgreementIsStable(w: World, events: seq<Event>, v: World)
    requires Settled(w) && Run(w, events, v)
    ensures Settled(v) && v.file1 == w.file1
    decreases |events|
  {
    if events != [] {
      SettledStep(w, events[0]);
      AgreementIsStable(Next(w, events[0]), events[1..], v);
    }
  }

  lemma {:induction false} CountSplits(posts: seq<Post>)
    ensures |posts| == CountTo(posts, Ccu1) + CountTo(posts, Ccu2)
  {
    if posts != [] {
      CountSplits(posts[..|posts| - 1]);
    }
  }

  lemma Distinct(w: World, p: Post, q: Post)
    requires PostsKnown(w) && p in w.generated && q in w.generated && p.to != q.to
    ensures p.seed != q.seed
  {
    var i :| 0 <= i < |w.generated| && w.generated[i] == p;
    var j :| 0 <= j < |w.generated| && w.generated[j] == q;
  }

  lemma OneStored(w: World, c: Side)
    requires Inv(w) && CountTo(w.stored, c) == 1 && CountTo(w.stored, Peer(c)) == 0
    ensures Agreed(w)
  {
    CountPositive(w.stored, c);
    var i :| 0 <= i < |w.stored| && w.stored[i].to == c;
    assert w.stored[i] in w.generated;
    var j :| 0 <= j < |w.generated| && w.generated[j] == w.stored[i];
    assert File(w, Peer(c)) == Some(w.generated[j].seed);
  }

  lemma BothStored(w: World)
    requires Inv(w) && CountTo(w.stored, Ccu1) == 1 && CountTo(w.stored, Ccu2) == 1
    ensures !Agreed(w) && w.file1.Some? && w.file2.Some?
  {
    CountPositive(w.stored, Ccu1);
    CountPositive(w.stored, Ccu2);
    var i :| 0 <= i < |w.stored| && w.stored[i].to == Ccu1;
    var j :| 0 <= j < |w.stored| && w.stored[j].to == Ccu2;
    Distinct(w, w.stored[i], w.stored[j]);
  }

  lemma NoneStored(w: World)
    requires Inv(w) && CountTo(w.stored, Ccu1) == 0 && CountTo(w.stored, Ccu2) == 0
    ensures !Agreed(w)
  {
    if w.file1.Some? && w.file2.Some? {
      CountPositive(w.generated, Ccu1);
      CountPositive(w.generated, Ccu2);
      var i :| 0 <= i < |w.generated| && w.generated[i].to == Ccu1;
      var j :| 0 <= j < |w.generated| && w.generated[j].to == Ccu2;
      Distinct(w, w.generated[i], w.generated[j]);
    }
  }

  /** When the exchange succeeds: in every run, the two sides hold the same seed exactly
      if the seed of exactly one post was stored. Two crossing posts make the sides
      swap their seeds. */
  lemma AgreedIffOneStored(events: seq<Event>, w: World)
    requires Run(START, events, w)
    ensures Agreed(w) <==> |w.stored| == 1
  {
    RunInv(START, events, w);
    CountSplits(w.stored);
    if CountTo(w.stored, Ccu1) == 1 && CountTo(w.stored, Ccu2) == 0 {
      OneStored(w, Ccu1);
    } else if CountTo(w.stored, Ccu2) == 1 && CountTo(w.stored, Ccu1) == 0 {
      OneStored(w, Ccu2);
    } else if CountTo(w.stored, Ccu1) == 0 && CountTo(w.stored, Ccu2) == 0 {
      NoneStored(w);
    } else {
      BothStored(w);
    }
  }

  // ------------------------------------------------------------ when it is stuck

  lemma {:induction false} StuckStays(w: World, events: seq<Event>, v: World)
    requires w.file1.Some? && w.file2.Some? && w.flight == [] && Run(w, events, v)
    ensures v.file1 == w.file1 && v.file2 == w.file2 && v.flight == []
    decreases |events|
  {
    if events != [] {
      StuckStays(Next(w, events[0]), events[1..], v);
    }
  }

  ghost predicate CanAgree(w: World) {
    exists events, v :: Run(w, events, v) && Agreed(v)
  }

  lemma {:induction false} FreshExists(posts: seq<Post>, n: nat) returns (s: Seed)
    ensures |s| > n && forall i | 0 <= i < |posts| :: |posts[i].seed| < |s|
    decreases |posts|
  {
    if posts == [] {
      s := seq(n + 1, i => 0);
    } else {
      var m := |posts[|posts| - 1].seed|;
      s := FreshExists(posts[..|posts| - 1], if m > n then m else n);
    }
  }

  lemma SendAgain(w: World, c: Side)
    requires File(w, c) == None && w.flight == []
    ensures CanAgree(w)
  {
    var s := FreshExists(w.generated, 0);
    assert Fresh(w, s);
    var w1 := Next(w, Mode(Peer(c), true));
    var w2 := Next(w1, Send(c, s));
    assert w2.flight == [Post(Peer(c), s)];
    var w3 := Next(w2, Arrive(0, true));
    assert Agreed(w3);
    var e1, e2, e3 := Mode(Peer(c), true), Send(c, s), Arrive(0, true);
    assert [e1, e2, e3][1..] == [e2, e3] && [e2, e3][1..] == [e3] && [e3][1..] == [];
    assert Run(w3, [], w3) && Run(w2, [e3], w3) && Run(w1, [e2, e3], w3);
    assert Run(w, [e1, e2, e3], w3);
  }

  /** When nothing is in flight any more, the sides can still come to agree exactly if
      they agree already or one of them has no seed: a seed that was written but whose
      post was lost is never sent again, so two lost or two crossing posts are final. */
  lemma CanAgreeIff(events: seq<Event>, w: World)
    requires Run(START, events, w) && w.flight == []
    ensures CanAgree(w) <==> |w.stored| == 1 || w.file1 == None || w.file2 == None
  {
    AgreedIffOneStored(events, w);
    if w.file1 == None {
      SendAgain(w, Ccu1);
    } else if w.file2 == None {
      SendAgain(w, Ccu2);
    } else if Agreed(w) {
      assert Run(w, [], w);
    } else {
      forall events, v | Run(w, events, v) ensures !Agreed(v) {
        StuckStays(w, events, v);
      }
    }
  }

  // ------------------------------------------------------------- what it is for

  /** Two CCUs that agree read each other's encrypted entries. */
  lemma AgreementSharesEntries(suite: Suite, w: World, c: Side, id: int, body: Bytes, nonce: Bytes)
    requires suite.cipher.Correct() && |nonce| == NONCE_SIZE && Agreed(w)
    ensures NewDecryptData(suite, File(w, Peer(c)).value, id, NewEncryptData(suite, File(w, c).value, id, body, nonce))
        == Some(body)
  {
    EntryRoundTrip(suite, File(w, c).value, id, body, nonce);
  }
}
