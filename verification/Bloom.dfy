/**
  The 2048-bit logs bloom of a block header: the function M3:2048 of the Ethereum Yellow Paper, section
  "Transaction Receipt".  The digest is an argument: nothing here depends on how it is computed.
 */
module Bloom {
  import opened Common
  import opened Ledger

  const BLOOM_BYTES: nat := 256
  const BLOOM_BITS: nat := 2048

  type Digest = d: Bytes | |d| == 32 witness seq(32, _ => 0)
  type Keccak = Bytes -> Digest

  datatype Log = Log(address: Bytes, topics: seq<Bytes>, blockHash: Hash, blockNumber: nat, index: nat,
                     removed: bool, args: Args)

  /** The decoded arguments of a ReclaimProcessStarted log. */
  datatype Args = Args(id: nat, executor: Bytes, miner: Address, amount: nat, expiration: nat, url: string)

  function LogValues(log: Log): seq<Bytes> {
    [log.address] + log.topics
  }

  function BitAt(digest: Digest, i: nat): (bit: nat)
    requires i < 31
    ensures bit < BLOOM_BITS
  {
    (digest[i] as nat * 256 + digest[i + 1] as nat) % BLOOM_BITS
  }

  function BloomBits(keccak: Keccak, value: Bytes): (bits: seq<nat>)
    ensures forall i :: 0 <= i < |bits| ==> bits[i] < BLOOM_BITS
  {
    var digest := keccak(value);
    [BitAt(digest, 0), BitAt(digest, 2), BitAt(digest, 4)]
  }

  function Mask(k: nat): bv8
    requires k < 8
  {
    (1 as bv8) << k
  }

  /** Bit `bit` counts from the low end of the last byte. */
  predicate BitSet(bloom: Bytes, bit: nat)
    requires |bloom| == BLOOM_BYTES && bit < BLOOM_BITS
  {
    bloom[255 - bit / 8] & Mask(bit % 8) != 0
  }

  /** `bloom_may_hold`: a missing or malformed bloom proves nothing. */
  predicate BloomMayHold(keccak: Keccak, bloom: Option<Bytes>, values: seq<Bytes>) {
    bloom.Some? && |bloom.value| == BLOOM_BYTES ==>
      forall i, j :: 0 <= i < |values| && 0 <= j < |BloomBits(keccak, values[i])| ==>
        BitSet(bloom.value, BloomBits(keccak, values[i])[j])
  }

  /** Some value of some log sets the bit. */
  ghost predicate Sets(keccak: Keccak, logs: seq<Log>, bit: nat) {
    exists log, value :: log in logs && value in LogValues(log) && bit in BloomBits(keccak, value)
  }

  /** The bloom of a block that holds exactly these logs. */
  ghost predicate IsBloom(keccak: Keccak, logs: seq<Log>, bloom: Bytes) {
    |bloom| == BLOOM_BYTES && forall bit: nat :: bit < BLOOM_BITS ==> (BitSet(bloom, bit) <==> Sets(keccak, logs, bit))
  }

  // ---- Bits of a byte --------------------------------------------------------------------------------

  lemma MaskDistinct(k: nat, l: nat)
    requires k < 8 && l < 8
    ensures Mask(k) & Mask(l) != 0 <==> k == l
  {
    var m, n := Mask(k), Mask(l);
    assert m == if k == 0 then 1 else if k == 1 then 2 else if k == 2 then 4 else if k == 3 then 8
                else if k == 4 then 16 else if k == 5 then 32 else if k == 6 then 64 else 128;
    assert n == if l == 0 then 1 else if l == 1 then 2 else if l == 2 then 4 else if l == 3 then 8
                else if l == 4 then 16 else if l == 5 then 32 else if l == 6 then 64 else 128;
  }

  lemma OrBits(x: bv8, y: bv8, m: bv8)
    ensures (x | y) & m != 0 <==> x & m != 0 || y & m != 0
  {
  }

  lemma SameBitsSameByte(x: bv8, y: bv8)
    requires forall k: nat :: k < 8 ==> (x & Mask(k) != 0 <==> y & Mask(k) != 0)
    ensures x == y
  {
    assert Mask(0) == 1 && Mask(1) == 2 && Mask(2) == 4 && Mask(3) == 8;
    assert Mask(4) == 16 && Mask(5) == 32 && Mask(6) == 64 && Mask(7) == 128;
    assert x & 1 == y & 1 && x & 2 == y & 2 && x & 4 == y & 4 && x & 8 == y & 8;
    assert x & 16 == y & 16 && x & 32 == y & 32 && x & 64 == y & 64 && x & 128 == y & 128;
  }

  /** Setting one bit leaves every other bit as it was. */
  lemma SetOneBit(bloom: Bytes, bit: nat, other: nat)
    requires |bloom| == BLOOM_BYTES && bit < BLOOM_BITS && other < BLOOM_BITS
    ensures var i := 255 - bit / 8;
      BitSet(bloom[i := bloom[i] | Mask(bit % 8)], other) <==> BitSet(bloom, other) || other == bit
  {
    var i := 255 - bit / 8;
    OrBits(bloom[i], Mask(bit % 8), Mask(other % 8));
    MaskDistinct(bit % 8, other % 8);
  }

  // ---- The bloom of a list of logs -------------------------------------------------------------------

  ghost predicate SetsInLog(keccak: Keccak, values: seq<Bytes>, bit: nat) {
    exists value :: value in values && bit in BloomBits(keccak, value)
  }

  lemma SetsExtends(keccak: Keccak, logs: seq<Log>, l: nat, bit: nat)
    requires l < |logs|
    ensures Sets(keccak, logs[..l + 1], bit) <==>
      Sets(keccak, logs[..l], bit) || SetsInLog(keccak, LogValues(logs[l]), bit)
  {
    assert logs[..l + 1] == logs[..l] + [logs[l]];
  }

  method SetBit(bloom: array<bv8>, bit: nat)
    requires bloom.Length == BLOOM_BYTES && bit < BLOOM_BITS
    modifies bloom
    ensures forall other: nat :: other < BLOOM_BITS ==>
      (BitSet(bloom[..], other) <==> old(BitSet(bloom[..], other)) || other == bit)
  {
    ghost var before := bloom[..];
    var i := 255 - bit / 8;
    bloom[i] := bloom[i] | Mask(bit % 8);
    assert bloom[..] == before[i := before[i] | Mask(bit % 8)];
    forall other: nat | other < BLOOM_BITS ensures BitSet(bloom[..], other) <==> BitSet(before, other) || other == bit {
      SetOneBit(before, bit, other);
    }
  }

  method AddValue(keccak: Keccak, value: Bytes, bloom: array<bv8>)
    requires bloom.Length == BLOOM_BYTES
    modifies bloom
    ensures forall bit: nat :: bit < BLOOM_BITS ==>
      (BitSet(bloom[..], bit) <==> old(BitSet(bloom[..], bit)) || bit in BloomBits(keccak, value))
  {
    var bits := BloomBits(keccak, value);
    for b := 0 to |bits|
      invariant forall bit: nat :: bit < BLOOM_BITS ==>
        (BitSet(bloom[..], bit) <==> old(BitSet(bloom[..], bit)) || bit in bits[..b])
    {
      SetBit(bloom, bits[b]);
    }
    assert bits[..|bits|] == bits;
  }

  /** `logs_bloom`: the bytes start at zero and each value of each log sets its three bits. */
  method LogsBloom(keccak: Keccak, logs: seq<Log>) returns (r: Bytes)
    ensures IsBloom(keccak, logs, r)
  {
    var bloom := new bv8[BLOOM_BYTES](_ => 0);
    for l := 0 to |logs|
      invariant IsBloom(keccak, logs[..l], bloom[..])
    {
      var values := LogValues(logs[l]);
      for v := 0 to |values|
        invariant forall bit: nat :: bit < BLOOM_BITS ==>
          (BitSet(bloom[..], bit) <==> Sets(keccak, logs[..l], bit) || SetsInLog(keccak, values[..v], bit))
      {
        ghost var before := bloom[..];
        AddValue(keccak, values[v], bloom);
        forall bit: nat | bit < BLOOM_BITS
          ensures BitSet(bloom[..], bit) <==> Sets(keccak, logs[..l], bit) || SetsInLog(keccak, values[..v + 1], bit)
        {
          SetsInLogExtends(keccak, values, v, bit);
          assert BitSet(bloom[..], bit) <==> BitSet(before, bit) || bit in BloomBits(keccak, values[v]);
        }
      }
      assert values[..|values|] == values;
      forall bit: nat ensures Sets(keccak, logs[..l + 1], bit) <==>
        Sets(keccak, logs[..l], bit) || SetsInLog(keccak, values, bit)
      {
        SetsExtends(keccak, logs, l, bit);
      }
    }
    assert logs[..|logs|] == logs;
    return bloom[..];
  }

  lemma SetsInLogExtends(keccak: Keccak, values: seq<Bytes>, v: nat, bit: nat)
    requires v < |values|
    ensures SetsInLog(keccak, values[..v + 1], bit) <==>
      SetsInLog(keccak, values[..v], bit) || bit in BloomBits(keccak, values[v])
  {
    assert values[..v + 1] == values[..v] + [values[v]];
  }

  // ---- What the bloom promises -----------------------------------------------------------------------

  /** No false negatives: the bloom of a list of logs passes every log's address together with any of its topics. */
  lemma NoFalseNegatives(keccak: Keccak, logs: seq<Log>, bloom: Bytes, log: Log, values: seq<Bytes>)
    requires IsBloom(keccak, logs, bloom) && log in logs
    requires forall i :: 0 <= i < |values| ==> values[i] in LogValues(log)
    ensures BloomMayHold(keccak, Some(bloom), values)
  {
    forall i, j | 0 <= i < |values| && 0 <= j < |BloomBits(keccak, values[i])|
      ensures BitSet(bloom, BloomBits(keccak, values[i])[j])
    {
      assert BloomBits(keccak, values[i])[j] in BloomBits(keccak, values[i]);
      assert Sets(keccak, logs, BloomBits(keccak, values[i])[j]);
    }
  }

  /** The test is exact about bits: it passes just when every bit of every value is set by some log. */
  lemma MayHoldIff(keccak: Keccak, logs: seq<Log>, bloom: Bytes, values: seq<Bytes>)
    requires IsBloom(keccak, logs, bloom)
    ensures BloomMayHold(keccak, Some(bloom), values) <==>
      forall value, bit :: value in values && bit in BloomBits(keccak, value) ==> Sets(keccak, logs, bit)
  {
    if BloomMayHold(keccak, Some(bloom), values) {
      forall value, bit | value in values && bit in BloomBits(keccak, value) ensures Sets(keccak, logs, bit) {
        var i :| 0 <= i < |values| && values[i] == value;
        var j :| 0 <= j < |BloomBits(keccak, values[i])| && BloomBits(keccak, values[i])[j] == bit;
        assert BitSet(bloom, BloomBits(keccak, values[i])[j]);
      }
    } else {
      var i, j :| 0 <= i < |values| && 0 <= j < |BloomBits(keccak, values[i])| &&
        !BitSet(bloom, BloomBits(keccak, values[i])[j]);
      assert values[i] in values && BloomBits(keccak, values[i])[j] in BloomBits(keccak, values[i]);
    }
  }

  /** The bytes of a bloom are fixed by the bits its logs set. */
  lemma BloomIsUnique(keccak: Keccak, logs: seq<Log>, a: Bytes, b: Bytes)
    requires IsBloom(keccak, logs, a) && IsBloom(keccak, logs, b)
    ensures a == b
  {
    forall i | 0 <= i < BLOOM_BYTES ensures a[i] == b[i] {
      forall k: nat | k < 8 ensures a[i] & Mask(k) != 0 <==> b[i] & Mask(k) != 0 {
        var bit := (255 - i) * 8 + k;
        assert bit / 8 == 255 - i && bit % 8 == k;
        assert BitSet(a, bit) <==> BitSet(b, bit);
      }
      SameBitsSameByte(a[i], b[i]);
    }
  }

  function Or(a: Bytes, b: Bytes): (r: Bytes)
    requires |a| == |b|
  {
    seq(|a|, i requires 0 <= i < |a| => a[i] | b[i])
  }

  /** The bloom of two lists of logs together is the bitwise or of their blooms. */
  lemma BloomOfBoth(keccak: Keccak, first: seq<Log>, second: seq<Log>, a: Bytes, b: Bytes, both: Bytes)
    requires IsBloom(keccak, first, a) && IsBloom(keccak, second, b) && IsBloom(keccak, first + second, both)
    ensures both == Or(a, b)
  {
    forall bit: nat | bit < BLOOM_BITS ensures BitSet(Or(a, b), bit) <==> Sets(keccak, first + second, bit) {
      OrBits(a[255 - bit / 8], b[255 - bit / 8], Mask(bit % 8));
      assert BitSet(Or(a, b), bit) <==> BitSet(a, bit) || BitSet(b, bit);
      SetsOfBoth(keccak, first, second, bit);
    }
    BloomIsUnique(keccak, first + second, both, Or(a, b));
  }

  lemma SetsOfBoth(keccak: Keccak, first: seq<Log>, second: seq<Log>, bit: nat)
    ensures Sets(keccak, first + second, bit) <==> Sets(keccak, first, bit) || Sets(keccak, second, bit)
  {
  }
}
