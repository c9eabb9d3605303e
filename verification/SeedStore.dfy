/** One CCU's side of the seed exchange: its sealed seed file and what the sender, the
    receiver and the key reader do with it. */
module SeedStore {
  import opened Wrappers
  import opened Encryption
  import opened SeedExchange

  datatype Status = Stored | Disabled | NotAttested | NoSeed | NotStored

  class Ccu {
    const side: Side
    const sealer: Sealer
    const key: Bytes
    const keyInfo: Bytes
    var exchanging: bool
    var file: Option<Bytes>

    /** The seed in the file. */
    ghost function Held(): Option<Seed>
      reads this
    {
      if file == None then None
      else
        match Unseal(sealer, file.value, [])
        case Ok(s) => Some(s)
        case Err(_) => None
    }

    ghost predicate Valid()
      reads this
    {
      && sealer.cipher.Correct() && keyInfo != [] && |keyInfo| < TWO32 && sealer.sealKey(keyInfo) == Some(key)
      && (file.Some? ==> Held().Some?)
    }

    constructor (side: Side, sealer: Sealer, key: Bytes, keyInfo: Bytes, exchanging: bool)
      requires sealer.cipher.Correct() && keyInfo != [] && |keyInfo| < TWO32 && sealer.sealKey(keyInfo) == Some(key)
      ensures Valid() && Held() == None && this.exchanging == exchanging && this.side == side
    {
      this.side, this.sealer, this.key, this.keyInfo := side, sealer, key, keyInfo;
      this.exchanging, this.file := exchanging, None;
    }

    method WriteSealedSeed(seed: Seed, nonce: Bytes)
      requires Valid() && |nonce| == NONCE_SIZE
      modifies this`file
      ensures Valid() && Held() == Some(seed)
    {
      SealRoundTrip(sealer, seed, key, keyInfo, [], nonce);
      file := Some(Seal(sealer.cipher, seed, key, keyInfo, [], nonce));
    }

    /** None: there is a seed already, or the file could not be written. */
    method GenerateSeed(random: Seed, nonce: Bytes, writable: bool) returns (seed: Option<Seed>)
      requires Valid() && |nonce| == NONCE_SIZE
      modifies this`file
      ensures Valid()
      ensures seed.Some? <==> old(Held()) == None && writable
      ensures seed.Some? ==> seed.value == random && Held() == Some(random)
      ensures seed == None ==> file == old(file)
    {
      if file.Some? {
        return None;
      }
      if !writable {
        return None;
      }
      WriteSealedSeed(random, nonce);
      seed := Some(random);
    }

    /** The sender: the step `Send` of this side, as far as its own file and the post
        that goes out are concerned. A seed that cannot be written is not sent. */
    method SendSeed(random: Seed, nonce: Bytes, writable: bool, ghost w: World) returns (post: Option<Post>)
      requires Valid() && |nonce| == NONCE_SIZE
      requires File(w, side) == Held() && Enabled(w, Send(side, random))
      modifies this`file
      ensures Valid()
      ensures writable ==>
                && Held() == File(Next(w, Send(side, random)), side)
                && Next(w, Send(side, random)).flight == w.flight + match post case None => [] case Some(p) => [p]
      ensures !writable ==> file == old(file) && post == None
    {
      var seed := GenerateSeed(random, nonce, writable);
      if seed == None {
        return None;
      }
      post := Some(Post(Peer(side), seed.value));
    }

    /** The receiver: the step `Arrive` of this side. A seed that is there already is
        overwritten; one that cannot be written is refused, and the post is lost. */
    method HandleKey(seed: Seed, attested: bool, nonce: Bytes, writable: bool, ghost w: World, ghost index: nat)
      returns (status: Status)
      requires Valid() && |nonce| == NONCE_SIZE
      requires File(w, side) == Held() && Exchanging(w, side) == exchanging
      requires index < |w.flight| && w.flight[index] == Post(side, seed)
      modifies this`file
      ensures Valid()
      ensures writable ==> Held() == File(Next(w, Arrive(index, attested)), side)
      ensures !writable ==> Held() == File(Next(w, Lose(index)), side)
      ensures status == Stored <==> exchanging && attested && seed != [] && writable
    {
      if !exchanging {
        return Disabled;
      }
      if !attested {
        return NotAttested;
      }
      if |seed| == 0 {
        return NoSeed;
      }
      if !writable {
        return NotStored;
      }
      WriteSealedSeed(seed, nonce);
      status := Stored;
    }

    method GetKey() returns (seed: Option<Seed>)
      requires Valid()
      ensures seed == Held()
    {
      if file == None {
        return None;
      }
      match Unseal(sealer, file.value, []) {
        case Ok(s) => seed := Some(s);
        case Err(_) => seed := None;
      }
    }
  }
}
