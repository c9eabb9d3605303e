/** The client's framing of a request and its reassembly by the middleware: eight
    length bytes, then the payload in chunks, over a byte stream that the network
    may cut anywhere. */
module Framing {
  import opened Wrappers
  import opened Encryption

  const PREFIX: nat := 8
  const CHUNK: nat := 8192
  const TWO64: int := 0x1_0000_0000_0000_0000

  // ----------------------------------------------------------- length prefix

  /** The `k` low bytes of `n`, most significant first. */
  function BigEndian(n: nat, k: nat): (r: Bytes)
    ensures |r| == k
  {
    if k == 0 then [] else BigEndian(n / 256, k - 1) + [n % 256]
  }

  function FromBigEndian(b: Bytes): nat {
    if b == [] then 0 else 256 * FromBigEndian(b[..|b| - 1]) + b[|b| - 1] as int
  }

  function Power256(k: nat): (p: nat)
    ensures p > 0
  {
    if k == 0 then 1 else 256 * Power256(k - 1)
  }

  lemma {:induction false} BigEndianRoundTrip(n: nat, k: nat)
    requires n < Power256(k)
    ensures FromBigEndian(BigEndian(n, k)) == n
  {
    if k > 0 {
      BigEndianRoundTrip(n / 256, k - 1);
      assert BigEndian(n, k)[..k - 1] == BigEndian(n / 256, k - 1);
    }
  }

  lemma {:induction false} ZerosAreZero(k: nat)
    ensures FromBigEndian(Zeros(k)) == 0
  {
    if k > 0 {
      ZerosAreZero(k - 1);
      assert Zeros(k)[..k - 1] == Zeros(k - 1);
    }
  }

  lemma Prefix64(n: nat)
    requires n < TWO64
    ensures FromBigEndian(BigEndian(n, PREFIX)) == n
  {
    assert Power256(8) == 256 * Power256(7) == 65536 * Power256(6) == 0x100_0000 * Power256(5)
        == 0x1_0000_0000 * Power256(4);
    assert Power256(4) == 256 * Power256(3) == 65536 * Power256(2) == 0x100_0000 * Power256(1) == 0x1_0000_0000;
    BigEndianRoundTrip(n, PREFIX);
  }

  // ----------------------------------------------------------------- sending

  function Flatten(parts: seq<Bytes>): Bytes {
    if parts == [] then [] else parts[0] + Flatten(parts[1..])
  }

  function Frame(payload: Bytes): Bytes {
    BigEndian(|payload| % TWO64, PREFIX) + payload
  }

  function Cut(payload: Bytes): seq<Bytes> {
    if |payload| <= CHUNK then (if payload == [] then [] else [payload])
    else [payload[..CHUNK]] + Cut(payload[CHUNK..])
  }

  /** The chunks partition the payload, in order and without gap or overlap; all but
      the last are full. */
  lemma {:induction false} CutPartitions(payload: Bytes)
    ensures var c := Cut(payload);
            && Flatten(c) == payload
            && |c| == (|payload| + CHUNK - 1) / CHUNK
            && forall j | 0 <= j < |c| :: 0 < |c[j]| <= CHUNK && (j < |c| - 1 ==> |c[j]| == CHUNK)
    decreases |payload|
  {
    if |payload| > CHUNK {
      CutPartitions(payload[CHUNK..]);
      assert Cut(payload)[1..] == Cut(payload[CHUNK..]);
      assert payload == payload[..CHUNK] + payload[CHUNK..];
    } else if payload != [] {
      assert [payload][1..] == [];
      assert Flatten([payload]) == payload + [];
    }
  }

  /** The writes of the client. */
  method Send(payload: Bytes) returns (writes: seq<Bytes>)
    ensures writes == [BigEndian(|payload| % TWO64, PREFIX)] + Cut(payload)
    ensures Flatten(writes) == Frame(payload)
  {
    var prefix := BigEndian(|payload| % TWO64, PREFIX);
    writes := [prefix];
    var i := 0;
    assert payload[0..] == payload;
    while i < |payload|
      invariant [prefix] + Cut(payload) == writes + Cut(payload[if i <= |payload| then i else |payload|..])
      decreases |payload| - i
    {
      var end := i + CHUNK;
      if end > |payload| {
        end := |payload|;
      }
      CutHere(payload, i, end);
      writes := writes + [payload[i..end]];
      i := i + CHUNK;
    }
    assert payload[|payload|..] == [] && writes + [] == writes;
    CutPartitions(payload);
    assert writes[1..] == Cut(payload);
  }

  lemma CutHere(payload: Bytes, i: nat, end: nat)
    requires i < |payload| && end == if i + CHUNK > |payload| then |payload| else i + CHUNK
    ensures Cut(payload[i..]) == [payload[i..end]] + Cut(payload[end..])
  {
    assert payload[i..][..end - i] == payload[i..end];
    assert payload[i..][end - i..] == payload[end..];
    if end == |payload| {
      assert payload[end..] == [] && payload[i..end] == payload[i..];
    }
  }

  // --------------------------------------------------------------- receiving

  /** How the stream arrives: each segment is what is there when a read looks. At the
      end the peer has closed, or the connection is broken. */
  datatype Stream = Stream(segments: seq<Bytes>, broken: bool)

  predicate Arriving(segments: seq<Bytes>) {
    forall i | 0 <= i < |segments| :: segments[i] != []
  }

  /** A read with room for `size` bytes. */
  function Taken(segments: seq<Bytes>, size: nat): (b: Bytes)
    requires segments != []
    ensures b <= segments[0] && |b| <= size
  {
    if |segments[0]| <= size then segments[0] else segments[0][..size]
  }

  function Left(segments: seq<Bytes>, size: nat): seq<Bytes>
    requires segments != []
  {
    if |segments[0]| <= size then segments[1..] else [segments[0][size..]] + segments[1..]
  }

  lemma ReadTakes(segments: seq<Bytes>, size: nat)
    requires segments != [] && Arriving(segments) && size > 0
    ensures Flatten(segments) == Taken(segments, size) + Flatten(Left(segments, size))
    ensures Arriving(Left(segments, size)) && Taken(segments, size) != []
  {
    var rest := Left(segments, size);
    if |segments[0]| > size {
      assert rest[1..] == segments[1..];
      assert segments[0] == segments[0][..size] + segments[0][size..];
      forall i | 0 <= i < |rest| ensures rest[i] != [] {
        assert i > 0 ==> rest[i] == segments[i];
      }
    } else {
      forall i | 0 <= i < |rest| ensures rest[i] != [] {
        assert rest[i] == segments[i + 1];
      }
    }
  }

  /** The payload loop: read until there are `length` bytes or the peer has closed. */
  function Gather(s: Stream, data: Bytes, length: nat): Option<Bytes>
    requires Arriving(s.segments)
    decreases |Flatten(s.segments)|
  {
    if |data| >= length then Some(data)
    else if s.segments == [] then if s.broken then None else Some(data)
    else
      ReadTakes(s.segments, CHUNK);
      Gather(s.(segments := Left(s.segments, CHUNK)), data + Taken(s.segments, CHUNK), length)
  }

  /** The prefix is read once, into a zeroed buffer, however many bytes that gives. */
  function Received(s: Stream): Option<Bytes>
    requires Arriving(s.segments)
  {
    if s.segments == [] then None
    else
      ReadTakes(s.segments, PREFIX);
      var prefix := Taken(s.segments, PREFIX);
      Gather(s.(segments := Left(s.segments, PREFIX)), [], FromBigEndian(prefix + Zeros(PREFIX - |prefix|)))
  }

  class Conn {
    var segments: seq<Bytes>
    const broken: bool

    ghost predicate Valid()
      reads this
    {
      Arriving(segments)
    }

    function View(): Stream
      reads this
    {
      Stream(segments, broken)
    }

    constructor (s: Stream)
      requires Arriving(s.segments)
      ensures Valid() && View() == s
    {
      segments, broken := s.segments, s.broken;
    }

    /** None: closed or broken. */
    method Read(size: nat) returns (b: Option<Bytes>)
      requires Valid() && size > 0
      modifies this
      ensures Valid()
      ensures old(segments) == [] ==> b == None && segments == []
      ensures old(segments) != [] ==> b == Some(Taken(old(segments), size)) && segments == Left(old(segments), size)
    {
      if segments == [] {
        return None;
      }
      ReadTakes(segments, size);
      b := Some(Taken(segments, size));
      segments := Left(segments, size);
    }

    /** The reading half of the client handler. */
    method ReceivePayload() returns (r: Option<Bytes>)
      requires Valid()
      modifies this
      ensures r == Received(old(View()))
    {
      var first := Read(PREFIX);
      if first == None {
        return None;
      }
      var length := FromBigEndian(first.value + Zeros(PREFIX - |first.value|));
      var data: Bytes := [];
      while |data| < length
        invariant Valid()
        invariant Received(old(View())) == Gather(View(), data, length)
        decreases |Flatten(segments)|
      {
        if segments != [] {
          ReadTakes(segments, CHUNK);
        }
        var b := Read(CHUNK);
        if b == None {
          if broken {
            return None;
          }
          break;
        }
        data := data + b.value;
      }
      r := Some(data);
    }
  }

  // --------------------------------------------------------------- reassembly

  lemma {:induction false} GatherAll(s: Stream, data: Bytes, length: nat)
    requires Arriving(s.segments) && |data| + |Flatten(s.segments)| == length
    ensures Gather(s, data, length) == Some(data + Flatten(s.segments))
    decreases |Flatten(s.segments)|
  {
    if s.segments == [] {
      assert data + [] == data;
    } else {
      ReadTakes(s.segments, 1);
      assert |Flatten(s.segments)| > 0;
      ReadTakes(s.segments, CHUNK);
      var b, rest := Taken(s.segments, CHUNK), Left(s.segments, CHUNK);
      GatherAll(s.(segments := rest), data + b, length);
      assert data + b + Flatten(rest) == data + (b + Flatten(rest));
    }
  }

  lemma SameHead(a: Bytes, b: Bytes, c: Bytes, d: Bytes)
    requires a + b == c + d && |a| == |c|
    ensures a == c && b == d
  {
    assert a == (a + b)[..|a|] && c == (c + d)[..|a|];
    assert b == (a + b)[|a|..] && d == (c + d)[|a|..];
  }

  lemma HeadReassembled(head: Bytes, payload: Bytes, s: Stream)
    requires |head| == PREFIX && FromBigEndian(head) == |payload|
    requires Arriving(s.segments) && Flatten(s.segments) == head + payload
    requires s.segments != [] && |s.segments[0]| >= PREFIX
    ensures Received(s) == Some(payload)
  {
    ReadTakes(s.segments, PREFIX);
    var prefix, rest := Taken(s.segments, PREFIX), Left(s.segments, PREFIX);
    SameHead(head, payload, prefix, Flatten(rest));
    assert prefix + Zeros(0) == prefix;
    GatherAll(s.(segments := rest), [], |payload|);
    assert [] + payload == payload;
  }

  /** For every payload and every way the stream is cut after the prefix, the
      middleware reads exactly the payload, if the first read gives the whole prefix. */
  lemma Reassembled(payload: Bytes, s: Stream)
    requires |payload| < TWO64 && Arriving(s.segments) && Flatten(s.segments) == Frame(payload)
    requires s.segments != [] && |s.segments[0]| >= PREFIX
    ensures Received(s) == Some(payload)
  {
    var n := |payload|;
    assert n % TWO64 == n;
    Prefix64(n);
    HeadReassembled(BigEndian(n, PREFIX), payload, s);
  }

  /** A first read of `n` bytes delivers every payload, however the rest is cut. */
  ghost predicate Delivers(n: nat) {
    forall payload, s: Stream |
        && |payload| < TWO64 && Arriving(s.segments) && Flatten(s.segments) == Frame(payload)
        && s.segments != [] && |Taken(s.segments, PREFIX)| == n ::
      Received(s) == Some(payload)
  }

  /** The middleware ignores how many prefix bytes its first read gave: payloads are
      delivered exactly if it gave all eight. */
  lemma WholePrefixNeeded(n: nat)
    requires 0 < n <= PREFIX
    ensures Delivers(n) <==> n == PREFIX
  {
    if n == PREFIX {
      forall payload, s: Stream |
          && |payload| < TWO64 && Arriving(s.segments) && Flatten(s.segments) == Frame(payload)
          && s.segments != [] && |Taken(s.segments, PREFIX)| == n
        ensures Received(s) == Some(payload)
      {
        Reassembled(payload, s);
      }
    } else {
      ShortPrefix(n);
    }
  }

  lemma FlattenTwo(a: Bytes, b: Bytes)
    ensures Flatten([a, b]) == a + b
  {
    assert [a, b][1..] == [b] && [b][1..] == [];
    assert Flatten([b]) == b + Flatten([]);
  }

  lemma ShortIsZero(n: nat)
    requires 0 < n < PREFIX
    ensures var prefix := Frame([0])[..n]; prefix + Zeros(PREFIX - n) == Zeros(PREFIX)
  {
    OnePrefix();
    assert Frame([0])[..n] == Zeros(n);
  }

  /** The payload of one byte is received as empty. */
  lemma ShortPrefix(n: nat)
    requires 0 < n < PREFIX
    ensures !Delivers(n)
  {
    var frame := Frame([0]);
    var s := Stream([frame[..n], frame[n..]], false);
    FlattenTwo(frame[..n], frame[n..]);
    assert frame[..n] + frame[n..] == frame;
    assert Arriving(s.segments);
    ShortIsZero(n);
    ZerosAreZero(PREFIX);
    ReadTakes(s.segments, PREFIX);
    assert Received(s) == Some([]);
  }

  lemma OnePrefix()
    ensures BigEndian(1, PREFIX) == Zeros(7) + [1]
  {
    ZeroPrefix(7);
  }

  lemma {:induction false} ZeroPrefix(k: nat)
    ensures BigEndian(0, k) == Zeros(k)
  {
    if k > 0 {
      ZeroPrefix(k - 1);
    }
  }
}
