/** The on-chain map of IPNS keys: values of up to 64 bytes are stored in two words
    of 32, under names cut or padded to one word, and joined again on reading. */
module KeyMap {
  import opened Wrappers
  import opened Encryption

  const WORD: nat := 32

  type Word = w: Bytes | |w| == WORD witness seq(WORD, i => 0)

  function Min(x: int, y: int): int {
    if x < y then x else y
  }

  /** Copied into a zeroed word: cut to its size, or padded with zeros. */
  function ToWord(b: Bytes): Word {
    var n := Min(WORD, |b|);
    b[..n] + Zeros(WORD - n)
  }

  function TrimZeros(b: Bytes): Bytes {
    if b != [] && b[|b| - 1] == 0 then TrimZeros(b[..|b| - 1]) else b
  }

  // ---------------------------------------------------------------- contract

  type Address = nat

  datatype Entry = Entry(sender: Address, hashPart1: Word, hashPart2: Word)

  /** The contract's mapping: every name has an entry, at first all zero. */
  type Entries = map<Word, Entry>

  function Lookup(m: Entries, name: Word): Entry {
    if name in m then m[name] else Entry(0, Zeros(WORD), Zeros(WORD))
  }

  class Sparta {
    var allIPNSKeys: Entries

    constructor ()
      ensures allIPNSKeys == map[]
    {
      allIPNSKeys := map[];
    }

    method SetIPNSKey(sender: Address, name: Word, hash1: Word, hash2: Word)
      modifies this
      ensures allIPNSKeys == old(allIPNSKeys)[name := Entry(sender, hash1, hash2)]
    {
      allIPNSKeys := allIPNSKeys[name := Lookup(allIPNSKeys, name).(sender := sender)];
      allIPNSKeys := allIPNSKeys[name := Lookup(allIPNSKeys, name).(hashPart1 := hash1)];
      allIPNSKeys := allIPNSKeys[name := Lookup(allIPNSKeys, name).(hashPart2 := hash2)];
    }

    method GetIPNSKey(name: Word) returns (sender: Address, joined: Bytes)
      ensures sender == Lookup(allIPNSKeys, name).sender
      ensures joined == Lookup(allIPNSKeys, name).hashPart1 + Lookup(allIPNSKeys, name).hashPart2
    {
      var e := Lookup(allIPNSKeys, name);
      var memory := new Byte[2 * WORD](i => 0);
      forall i | 0 <= i < WORD {
        memory[i] := e.hashPart1[i];
      }
      forall i | 0 <= i < WORD {
        memory[WORD + i] := e.hashPart2[i];
      }
      sender, joined := e.sender, memory[..];
    }
  }

  // ------------------------------------------------------------------ client

  datatype Error = NotSet | TooLong

  /** The two halves of a value, or nothing when it is too long. */
  function Halves(raw: Bytes): Option<(Word, Word)> {
    if |raw| > 2 * WORD then None
    else Some((ToWord(raw), ToWord(raw[Min(WORD, |raw|)..])))
  }

  /** Go's `copy` into a zeroed array. */
  method CopyInto(a: array<Byte>, raw: Bytes)
    requires a.Length == WORD && a[..] == Zeros(WORD)
    modifies a
    ensures a[..] == ToWord(raw)
  {
    var n := Min(a.Length, |raw|);
    for i := 0 to n
      invariant forall j | 0 <= j < i :: a[j] == raw[j]
      invariant forall j | i <= j < WORD :: a[j] == 0
    {
      a[i] := raw[i];
    }
  }

  method SplitStringTo2xBytes32(raw: Bytes) returns (r: Option<(Word, Word)>)
    ensures r == Halves(raw)
  {
    if |raw| > 64 {
      return None;
    }
    var a := new Byte[WORD](i => 0);
    var b := new Byte[WORD](i => 0);
    CopyInto(a, raw[..Min(32, |raw|)]);
    CutToWord(raw);
    assert a[..] == ToWord(raw) && b[..] == Zeros(WORD);
    if |raw| > 32 {
      CopyInto(b, raw[32..]);
    }
    assert b[..] == ToWord(raw[Min(WORD, |raw|)..]);
    assert a[..] == ToWord(raw);
    r := Some((a[..], b[..]));
  }

  lemma CutToWord(raw: Bytes)
    ensures ToWord(raw[..Min(WORD, |raw|)]) == ToWord(raw)
    ensures |raw| <= WORD ==> ToWord(raw[Min(WORD, |raw|)..]) == Zeros(WORD)
  {
    var n := Min(WORD, |raw|);
    assert raw[..n][..n] == raw[..n];
    if |raw| <= WORD {
      assert raw[n..] == [];
    }
  }

  /** The effect of a set on the mapping; a value that is empty or too long changes nothing. */
  function AfterSet(m: Entries, sender: Address, name: Bytes, value: Bytes): Entries {
    match Halves(value)
    case None => m
    case Some(h) => if value == [] then m else m[ToWord(name) := Entry(sender, h.0, h.1)]
  }

  function ValueOf(m: Entries, name: Bytes): Bytes {
    var e := Lookup(m, ToWord(name));
    TrimZeros(e.hashPart1 + e.hashPart2)
  }

  method SetKey(contract: Sparta, sender: Address, name: Bytes, value: Bytes) returns (error: Option<Error>)
    modifies contract
    ensures contract.allIPNSKeys == AfterSet(old(contract.allIPNSKeys), sender, name, value)
    ensures error == if value == [] then Some(NotSet) else if |value| > 64 then Some(TooLong) else None
  {
    if value == [] {
      return Some(NotSet);
    }
    var word := new Byte[WORD](i => 0);
    CopyInto(word, name);
    var halves := SplitStringTo2xBytes32(value);
    if halves == None {
      return Some(TooLong);
    }
    contract.SetIPNSKey(sender, word[..], halves.value.0, halves.value.1);
    error := None;
  }

  method GetKey(contract: Sparta, name: Bytes) returns (value: Bytes)
    ensures value == ValueOf(contract.allIPNSKeys, name)
  {
    var word := new Byte[WORD](i => 0);
    CopyInto(word, name);
    var _, joined := contract.GetIPNSKey(word[..]);
    value := TrimZeros(joined);
  }

  // --------------------------------------------------------------- round trip

  lemma {:induction false} TrimPadding(b: Bytes, n: nat)
    ensures TrimZeros(b + Zeros(n)) == TrimZeros(b)
  {
    if n == 0 {
      assert b + Zeros(0) == b;
    } else {
      assert (b + Zeros(n))[..|b| + n - 1] == b + Zeros(n - 1);
      TrimPadding(b, n - 1);
    }
  }

  lemma {:induction false} TrimShortens(b: Bytes)
    ensures TrimZeros(b) <= b && (TrimZeros(b) == b <==> b == [] || b[|b| - 1] != 0)
  {
    if b != [] && b[|b| - 1] == 0 {
      TrimShortens(b[..|b| - 1]);
    }
  }

  /** Splitting, storing, joining and trimming a value drops its trailing zeros and
      nothing else. */
  lemma JoinedHalves(raw: Bytes)
    requires |raw| <= 64
    ensures var h := Halves(raw).value; TrimZeros(h.0 + h.1) == TrimZeros(raw)
  {
    HalvesJoin(raw);
    TrimPadding(raw, 64 - |raw|);
  }

  lemma HalvesJoin(raw: Bytes)
    requires |raw| <= 64
    ensures var h := Halves(raw).value; h.0 + h.1 == raw + Zeros(64 - |raw|)
  {
    if |raw| <= WORD {
      CutToWord(raw);
      assert raw[..|raw|] == raw;
      assert raw + Zeros(WORD - |raw|) + Zeros(WORD) == raw + Zeros(64 - |raw|);
    } else {
      var rest := raw[WORD..];
      assert ToWord(raw) == raw[..WORD];
      assert ToWord(rest) == rest + Zeros(WORD - |rest|);
      assert raw[..WORD] + (rest + Zeros(WORD - |rest|)) == raw + Zeros(64 - |raw|);
    }
  }

  // ---------------------------------------------------------------- many sets

  datatype Set = Set(sender: Address, name: Bytes, value: Bytes)

  function AfterSets(m: Entries, sets: seq<Set>): Entries {
    if sets == [] then m
    else
      var s := sets[|sets| - 1];
      AfterSet(AfterSets(m, sets[..|sets| - 1]), s.sender, s.name, s.value)
  }

  predicate Accepted(s: Set) {
    0 < |s.value| <= 64
  }

  /** The last accepted value under a name with the same first 32 bytes. */
  function LastValue(sets: seq<Set>, name: Bytes): Option<Bytes> {
    if sets == [] then None
    else
      var s := sets[|sets| - 1];
      if Accepted(s) && ToWord(s.name) == ToWord(name) then Some(s.value) else LastValue(sets[..|sets| - 1], name)
  }

  /** After any sequence of sets, what is read under a name is the last value accepted
      under it, without trailing zeros, or nothing. */
  lemma {:induction false} ReadsLast(sets: seq<Set>, name: Bytes)
    ensures ValueOf(AfterSets(map[], sets), name)
         == match LastValue(sets, name) case None => [] case Some(v) => TrimZeros(v)
    decreases |sets|
  {
    if sets == [] {
      assert Zeros(WORD) + Zeros(WORD) == [] + Zeros(64);
      TrimPadding([], 64);
    } else {
      var s, before := sets[|sets| - 1], sets[..|sets| - 1];
      ReadsLast(before, name);
      if Accepted(s) && ToWord(s.name) == ToWord(name) {
        JoinedHalves(s.value);
      }
    }
  }

  /** The value comes back exactly if it does not end in a zero byte. */
  lemma ReadsExactly(sets: seq<Set>, name: Bytes)
    requires LastValue(sets, name).Some?
    ensures var v := LastValue(sets, name).value;
            ValueOf(AfterSets(map[], sets), name) == v <==> v == [] || v[|v| - 1] != 0
  {
    ReadsLast(sets, name);
    TrimShortens(LastValue(sets, name).value);
  }

  predicate NoZero(b: Bytes) {
    forall i | 0 <= i < |b| :: b[i] != 0
  }

  /** Two names share an entry exactly if they have the same first 32 bytes. */
  lemma NamesCollide(a: Bytes, b: Bytes)
    requires NoZero(a) && NoZero(b)
    ensures ToWord(a) == ToWord(b) <==> a[..Min(WORD, |a|)] == b[..Min(WORD, |b|)]
  {
    WordBytes(a);
    WordBytes(b);
    if ToWord(a) == ToWord(b) {
      SameLength(a, b);
      SameLength(b, a);
    }
  }

  lemma WordBytes(a: Bytes)
    ensures var n := Min(WORD, |a|);
            (forall i | 0 <= i < n :: ToWord(a)[i] == a[i]) && forall i | n <= i < WORD :: ToWord(a)[i] == 0
  {
  }

  lemma SameLength(a: Bytes, b: Bytes)
    requires NoZero(b) && ToWord(a) == ToWord(b)
    ensures Min(WORD, |a|) >= Min(WORD, |b|)
  {
    WordBytes(a);
    WordBytes(b);
    var m := Min(WORD, |a|);
    assert m < WORD ==> ToWord(a)[m] == 0;
  }
}
