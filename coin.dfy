/**
 * io.nuls.kernel.model.Coin: an output naming its owner (an address or a locking script),
 * its value in Na and its lock time, with the usability rule, the serialized size, the
 * field-order serialization and parsing, and the address extraction.
 */
module Coins {
  import opened Wrappers
  import opened Kernel
  import opened Codec

  /** A coin; `owner` is None while the Java field is still null. */
  datatype Coin = Coin(owner: Option<Bytes>, na: int, lockTime: int)

  /** `new Coin(owner, na)`: the lock time keeps its default, 0, so the coin is usable at once. */
  function CoinOf(owner: Bytes, na: int): (c: Coin)
    ensures c.owner == Some(owner) && c.na == na
    ensures forall chain :: Usable(c, chain)
  {
    Coin(Some(owner), na, 0)
  }

  // ---- usability ----

  /** The state of the chain a usability check looks at: best block height and wall-clock time. */
  datatype Chain = Chain(bestHeight: int, now: int)

  /**
   * NulsConstant.BlOCKHEIGHT_TIME_DIVIDE: lock times above it are timestamps, the others heights.
   * No lemma here depends on its value.
   */
  const BlockHeightTimeDivide: int := 1_000_000_000_000

  /**
   * Coin.usable(bestHeight): a negative lock time never unlocks, 0 is always usable, and a
   * positive one is a threshold, compared with the time or with the height by its magnitude.
   */
  predicate Usable(c: Coin, chain: Chain)
    ensures Usable(c, chain) <==> Reached(LockStateOf(c.lockTime), chain)
    ensures c.lockTime < 0 ==> !Usable(c, chain)
    ensures c.lockTime == 0 ==> Usable(c, chain)
  {
    if c.lockTime < 0 then false
    else if c.lockTime == 0 then true
    else if c.lockTime > BlockHeightTimeDivide then c.lockTime <= chain.now
    else c.lockTime <= chain.bestHeight
  }

  /** The lock time read as a tagged state: what the three-way sentinel encodes. */
  datatype ThresholdKind = Height | Timestamp
  datatype LockState = Locked | Matured | TimeLocked(kind: ThresholdKind, threshold: int)

  function LockStateOf(lockTime: int): LockState {
    if lockTime < 0 then Locked
    else if lockTime == 0 then Matured
    else TimeLocked(if lockTime > BlockHeightTimeDivide then Timestamp else Height, lockTime)
  }

  /** Whether the chain has reached a lock state; a threshold is reached inclusively. */
  predicate Reached(s: LockState, chain: Chain) {
    match s
    case Locked => false
    case Matured => true
    case TimeLocked(Height, t) => t <= chain.bestHeight
    case TimeLocked(Timestamp, t) => t <= chain.now
  }

  /** A coin that is usable stays usable as the chain grows and time passes. */
  lemma UsableMonotone(c: Coin, chain: Chain, later: Chain)
    requires chain.bestHeight <= later.bestHeight && chain.now <= later.now
    ensures Usable(c, chain) ==> Usable(c, later)
  {
  }

  // ---- size and serialization ----

  /** The owner bytes as written; a null owner is written as an empty byte string. */
  function OwnerBytes(c: Coin): Bytes {
    if c.owner.Some? then c.owner.value else []
  }

  /** Coin.size(): the three fields serializeToStream writes, exactly as many bytes as it writes. */
  function Size(c: Coin): (r: nat)
    ensures r == |Serialize(c)|
  {
    SizeOfBytes(OwnerBytes(c)) + SizeOfInt64 + SizeOfUint48
  }

  /** serializeToStream as a value: owner with its length, na as int64, lockTime as uint48. */
  function Serialize(c: Coin): Bytes {
    EncodeBytesWithLength(OwnerBytes(c)) + EncodeInt64(c.na) + EncodeUint48(c.lockTime)
  }

  /** parse as a value: the coin read from the front of `b` and the bytes it took. */
  function ParseCoin(b: Bytes): (r: Option<(Coin, nat)>)
    ensures r.Some? ==> r.value.1 <= |b|
  {
    match DecodeBytesWithLength(b)
    case None => None
    case Some((owner, k1)) =>
      match DecodeInt64(b[k1..])
      case None => None
      case Some((na, k2)) =>
        match DecodeUint48(b[k1 + k2..])
        case None => None
        case Some((lockTime, k3)) => Some((Coin(Some(owner), na, lockTime), k1 + k2 + k3))
  }

  /** parse reads back the three fields in the order they are written. */
  lemma ParseSerialize(c: Coin, rest: Bytes)
    requires c.owner.Some? && |c.owner.value| < Pow256(8)
    requires IsInt64(c.na) && 0 <= c.lockTime < Pow256(6)
    ensures ParseCoin(Serialize(c) + rest) == Some((c, Size(c)))
  {
    ParseSerializeLockTimeLowBits(c, rest);
    SmallModulus(c.lockTime, Pow256(6));
    assert c == Coin(Some(OwnerBytes(c)), c.na, c.lockTime % Pow256(6));
  }

  lemma SmallModulus(x: int, m: int)
    requires 0 <= x < m
    ensures x % m == x
  {
  }

  /**
   * Outside the uint48 range the lock time does not survive: it reads back as its low 48 bits,
   * so the locked sentinel -1 comes back as 2^48 - 1; a null owner comes back empty.
   */
  lemma ParseSerializeLockTimeLowBits(c: Coin, rest: Bytes)
    requires |OwnerBytes(c)| < Pow256(8) && IsInt64(c.na)
    ensures ParseCoin(Serialize(c) + rest)
         == Some((Coin(Some(OwnerBytes(c)), c.na, c.lockTime % Pow256(6)), Size(c)))
  {
    ParseEncodedFields(OwnerBytes(c), c.na, c.lockTime, rest);
  }

  lemma ParseEncodedFields(o: Bytes, na: int, lockTime: int, rest: Bytes)
    requires |o| < Pow256(8) && IsInt64(na)
    ensures ParseCoin(EncodeBytesWithLength(o) + EncodeInt64(na) + EncodeUint48(lockTime) + rest)
         == Some((Coin(Some(o), na, lockTime % Pow256(6)), SizeOfBytes(o) + SizeOfInt64 + SizeOfUint48))
  {
    var e1, e2, e3 := EncodeBytesWithLength(o), EncodeInt64(na), EncodeUint48(lockTime);
    var tail := e3 + rest;
    var mid := e2 + tail;
    var b := e1 + mid;
    assert e1 + e2 + e3 + rest == b;
    var k1 := SizeOfBytes(o);
    BytesWithLengthRoundTrip(o, mid);
    assert b[k1..] == mid;
    Int64RoundTrip(na, tail);
    assert b[k1 + 8..] == tail;
    Uint48ReadsLowBits(lockTime, rest);
    ParseFields(b, o, k1, na, lockTime % Pow256(6));
  }

  /** ParseCoin from the three reads, each taken as given. */
  lemma ParseFields(b: Bytes, o: Bytes, k1: nat, na: int, low: int)
    requires DecodeBytesWithLength(b) == Some((o, k1))
    requires k1 + 8 <= |b| && DecodeInt64(b[k1..]) == Some((na, 8))
    requires DecodeUint48(b[k1 + 8..]) == Some((low, 6))
    ensures ParseCoin(b) == Some((Coin(Some(o), na, low), k1 + 8 + 6))
  {
  }

  /** serializeToStream: the three writes, in field order. */
  method SerializeToStream(c: Coin, stream: OutputBuffer)
    modifies stream
    ensures stream.written == old(stream.written) + Serialize(c)
  {
    stream.WriteBytesWithLength(OwnerBytes(c));
    stream.WriteInt64(c.na);
    stream.WriteUint48(c.lockTime);
  }

  /** parse: the three reads, in field order; a short buffer is an error (NulsException). */
  method Parse(buffer: InputBuffer) returns (r: Option<Coin>)
    requires buffer.Valid()
    modifies buffer
    ensures buffer.Valid()
    ensures var p := ParseCoin(old(buffer.Remaining()));
      && (p.None? ==> r.None?)
      && (p.Some? ==> r == Some(p.value.0) && buffer.cursor == old(buffer.cursor) + p.value.1)
  {
    ghost var input := buffer.Remaining();
    var owner := buffer.ReadByLengthByte();
    if owner.None? {
      return None;
    }
    ghost var k1 := buffer.cursor - old(buffer.cursor);
    assert buffer.Remaining() == input[k1..];
    var na := buffer.ReadInt64();
    if na.None? {
      return None;
    }
    ghost var k2 := buffer.cursor - old(buffer.cursor) - k1;
    assert buffer.Remaining() == input[k1 + k2..];
    var lockTime := buffer.ReadUint48();
    if lockTime.None? {
      return None;
    }
    r := Some(Coin(owner, na.value, lockTime.value));
  }

  // ---- address extraction ----

  /** How Script classifies a locking script (Script is not part of this model). */
  datatype ScriptKind = SentToAddress | PayToScriptHash | OtherScript

  /** Where a script of each kind holds its 23-byte address. */
  function ScriptAddressOffset(k: ScriptKind): nat {
    match k
    case SentToAddress => 3
    case PayToScriptHash => 2
    case OtherScript => 0
  }

  /**
   * getAddress: a null or 23-byte owner is the address itself; a pay-to-address script holds it
   * from offset 3, a pay-to-script-hash script from offset 2; any other script is refused.
   */
  function GetAddress(c: Coin, scriptKind: Bytes -> ScriptKind): (r: Result<Option<Bytes>, ErrorCode>)
    ensures c.owner.None? ==> r == Ok(None)
    ensures c.owner.Some? && |c.owner.value| == HashLength ==> r == Ok(c.owner)
    ensures r.Ok? && r.value.Some? ==> |r.value.value| == HashLength
    ensures r.Ok? && r.value.Some? && |c.owner.value| != HashLength ==>
      var offset := ScriptAddressOffset(scriptKind(c.owner.value));
      offset + HashLength <= |c.owner.value| && r.value.value == c.owner.value[offset..offset + HashLength]
    ensures r.Err? <==>
      c.owner.Some? && |c.owner.value| != HashLength &&
      match scriptKind(c.owner.value)
      case SentToAddress => |c.owner.value| < 3 + HashLength
      case PayToScriptHash => |c.owner.value| < 2 + HashLength
      case OtherScript => true
    ensures r.Err? && c.owner.Some? && scriptKind(c.owner.value).OtherScript? ==>
      r.error == AddressNotBelongsToChain
  {
    if c.owner.None? || |c.owner.value| == HashLength then Ok(c.owner)
    else
      var owner := c.owner.value;
      match scriptKind(owner)
      case SentToAddress =>
        if |owner| < 3 + HashLength then Err(IndexOutOfBounds) else Ok(Some(owner[3..3 + HashLength]))
      case PayToScriptHash =>
        if |owner| < 2 + HashLength then Err(IndexOutOfBounds) else Ok(Some(owner[2..2 + HashLength]))
      case OtherScript => Err(AddressNotBelongsToChain)
  }
}
