/** The guarded allocator of OSAL.c: each block starts with its size and ends with a sentinel,
    one machine word each.  OSAL_U32 is an unsigned long, so the word size is a parameter. */
module OsalMemory {

  type Byte = x: int | 0 <= x < 256

  const MEMORY_SENTINEL: nat := 0xACDC_ACDC

  /** 256 to the power w: the number of values of a word of w bytes. */
  function Words(w: nat): (r: nat)
    ensures r >= 1
  {
    if w == 0 then 1 else 256 * Words(w - 1)
  }

  /** A word as memcpy copies it, least significant byte first. */
  function Encode(v: nat, w: nat): (r: seq<Byte>)
    ensures |r| == w
  {
    if w == 0 then [] else [v % 256] + Encode(v / 256, w - 1)
  }

  function Decode(bytes: seq<Byte>): nat {
    if bytes == [] then 0 else bytes[0] + 256 * Decode(bytes[1..])
  }

  lemma {:induction false} DecodeEncode(v: nat, w: nat)
    requires v < Words(w)
    ensures Decode(Encode(v, w)) == v
  {
    if w > 0 {
      DecodeEncode(v / 256, w - 1);
      assert Encode(v, w)[1..] == Encode(v / 256, w - 1);
    }
  }

  lemma {:induction false} EncodeDecode(bytes: seq<Byte>)
    ensures Decode(bytes) < Words(|bytes|)
    ensures Encode(Decode(bytes), |bytes|) == bytes
  {
    if bytes != [] {
      EncodeDecode(bytes[1..]);
      var rest := Decode(bytes[1..]);
      assert Decode(bytes) % 256 == bytes[0] && Decode(bytes) / 256 == rest;
      assert bytes == [bytes[0]] + bytes[1..];
    }
  }

  // ---------------------------------------------------------------- blocks

  /** A block for size bytes with both its guards in place. */
  ghost predicate Guarded(block: seq<Byte>, size: nat, w: nat) {
    && |block| == size + 2 * w
    && block[..w] == Encode(size, w)
    && block[size + w..] == Encode(MEMORY_SENTINEL, w)
  }

  /** The block for no bytes on a 32-bit target that stores the least significant byte first. */
  lemma {:induction false} EmptyBlock()
    ensures Guarded([0, 0, 0, 0, 0xDC, 0xAC, 0xDC, 0xAC], 0, 4)
  {
    var block: seq<Byte> := [0, 0, 0, 0, 0xDC, 0xAC, 0xDC, 0xAC];
    assert block[..4] == [0, 0, 0, 0] && block[4..] == [0xDC, 0xAC, 0xDC, 0xAC];
    assert Encode(0xACDC_ACDC, 4) == [0xDC] + Encode(0xACDC_AC, 3);
  }

  /** What malloc() is asked for: the sum is computed in a word. */
  function Requested(size: nat, w: nat): nat {
    (size + 2 * w) % Words(w)
  }

  /** The copies of OSAL_Malloc stay inside the block it gets exactly when the size with both
      guards is representable. */
  lemma {:induction false} BlockLargeEnoughIff(size: nat, w: nat)
    requires w >= 4 && size < Words(w)
    ensures size + 2 * w <= Requested(size, w) <==> size + 2 * w < Words(w)
  {
    if size + 2 * w >= Words(w) {
      WordHolds(w);
      Wraps(size + 2 * w, Words(w));
    } else {
      Small(size + 2 * w, Words(w));
    }
  }

  /** Four bytes short of the largest size on a 32-bit target: four bytes are asked for. */
  lemma {:induction false} WrappedRequest()
    ensures 0xFFFF_FFFC < Words(4) && Requested(0xFFFF_FFFC, 4) == 4
  {
    assert Words(1) == 256 && Words(2) == 0x1_0000 && Words(3) == 0x100_0000 && Words(4) == 0x1_0000_0000;
  }

  lemma {:induction false} Small(a: nat, m: nat)
    requires a < m
    ensures a % m == a
  {
  }

  lemma {:induction false} Wraps(a: nat, m: nat)
    requires 0 < m <= a
    ensures a % m < a
  {
  }

  /** A word counts at least its own guards, and the sentinel fits into it. */
  lemma {:induction false} WordHolds(w: nat)
    requires w >= 4
    ensures Words(w) > 2 * w && MEMORY_SENTINEL < Words(w)
  {
    if w == 4 {
      assert Words(4) == 256 * Words(3) && Words(3) == 256 * Words(2) && Words(2) == 256 * Words(1);
    } else {
      WordHolds(w - 1);
    }
  }

  /** memcpy into an array. */
  method Copy(data: array<Byte>, at: nat, bytes: seq<Byte>)
    requires at + |bytes| <= data.Length
    modifies data
    ensures data[..] == old(data[..at]) + bytes + old(data[at + |bytes|..])
  {
    for i := 0 to |bytes|
      invariant forall k :: 0 <= k < i ==> data[at + k] == bytes[k]
      invariant forall k :: 0 <= k < at ==> data[k] == old(data[k])
      invariant forall k :: at + i <= k < data.Length ==> data[k] == old(data[k])
    {
      data[at + i] := bytes[i];
    }
    assert data[..at] == old(data[..at]);
    assert data[at..at + |bytes|] == bytes;
    assert data[at + |bytes|..] == old(data[at + |bytes|..]);
  }

  /** OSAL_Malloc: the caller's bytes start one word into the block; null without memory. */
  method Malloc(size: nat, w: nat, available: bool) returns (result: array?<Byte>)
    requires w >= 4 && size + 2 * w < Words(w)
    ensures result == null <==> !available
    ensures result != null ==> fresh(result) && Guarded(result[..], size, w)
  {
    if !available {
      return null;
    }
    BlockLargeEnoughIff(size, w);
    Small(size + 2 * w, Words(w));
    var block := new Byte[Requested(size, w)];
    Copy(block, 0, Encode(size, w));
    assert block[..w] == Encode(size, w);
    Copy(block, size + w, Encode(MEMORY_SENTINEL, w));
    assert block[..w] == Encode(size, w);
    result := block;
  }

  /** Whether the sentinel is where the header says it should be. */
  ghost predicate SentinelIntact(block: seq<Byte>, w: nat)
    requires |block| >= w
  {
    var size := Decode(block[..w]);
    size + 2 * w <= |block| && block[size + w..][..w] == Encode(MEMORY_SENTINEL, w)
  }

  /** OSAL_Free up to the release: the size from the header, and the verdict of memcmp. */
  method Free(block: array<Byte>, w: nat) returns (size: nat, intact: bool)
    requires w <= block.Length && Decode(block[..w]) + 2 * w <= block.Length
    ensures size == Decode(block[..w])
    ensures intact <==> SentinelIntact(block[..], w)
  {
    size := Decode(block[..w]);
    assert block[..][..w] == block[..w];
    assert block[..][size + w..][..w] == block[size + w..size + 2 * w];
    intact := block[size + w..size + 2 * w] == Encode(MEMORY_SENTINEL, w);
  }

  // ---------------------------------------------------------------- use by the client

  /** A write of one byte at an offset from the pointer the client got. */
  datatype Write = Write(offset: int, value: Byte)

  /** The writes land in the block, whose length is n, behind its header. */
  ghost predicate BehindHeader(writes: seq<Write>, n: nat, w: nat) {
    forall i :: 0 <= i < |writes| ==> 0 <= writes[i].offset && w + writes[i].offset < n
  }

  ghost predicate Confined(writes: seq<Write>, size: nat) {
    forall i :: 0 <= i < |writes| ==> 0 <= writes[i].offset < size
  }

  ghost function StoreAll(block: seq<Byte>, writes: seq<Write>, w: nat): (r: seq<Byte>)
    requires BehindHeader(writes, |block|, w)
    ensures |r| == |block|
    decreases |writes|
  {
    if writes == [] then block
    else StoreAll(block[w + writes[0].offset := writes[0].value], writes[1..], w)
  }

  /** Whatever is written behind the header, the header stays. */
  lemma {:induction false} HeaderStays(block: seq<Byte>, writes: seq<Write>, w: nat)
    requires BehindHeader(writes, |block|, w) && w <= |block|
    ensures StoreAll(block, writes, w)[..w] == block[..w]
    decreases |writes|
  {
    if writes != [] {
      var stored := block[w + writes[0].offset := writes[0].value];
      HeaderStays(stored, writes[1..], w);
      assert stored[..w] == block[..w];
    }
  }

  lemma {:induction false} TrailerStays(block: seq<Byte>, writes: seq<Write>, size: nat, w: nat)
    requires Confined(writes, size) && size + w <= |block|
    ensures BehindHeader(writes, |block|, w)
    ensures StoreAll(block, writes, w)[size + w..] == block[size + w..]
    decreases |writes|
  {
    if writes != [] {
      var stored := block[w + writes[0].offset := writes[0].value];
      TrailerStays(stored, writes[1..], size, w);
      assert stored[size + w..] == block[size + w..];
    }
  }

  /** OSAL_Free finds the size it was given, whatever was written behind the header, and the
      sentinel intact if and only if the last word of the block is as OSAL_Malloc left it. */
  lemma {:induction false} FreeVerdictExact(block: seq<Byte>, writes: seq<Write>, size: nat, w: nat)
    requires Guarded(block, size, w) && size < Words(w) && BehindHeader(writes, |block|, w)
    ensures Decode(StoreAll(block, writes, w)[..w]) == size
    ensures SentinelIntact(StoreAll(block, writes, w), w)
       <==> StoreAll(block, writes, w)[size + w..] == block[size + w..]
  {
    HeaderStays(block, writes, w);
    DecodeEncode(size, w);
    var last := StoreAll(block, writes, w)[size + w..];
    assert last[..w] == last;
  }

  /** After any writes confined to the bytes asked for, OSAL_Free finds the size it was given and
      an intact sentinel. */
  lemma {:induction false} FreeAfterWrites(block: seq<Byte>, writes: seq<Write>, size: nat, w: nat)
    requires Guarded(block, size, w) && size < Words(w) && Confined(writes, size)
    ensures BehindHeader(writes, |block|, w)
    ensures Decode(StoreAll(block, writes, w)[..w]) == size
    ensures SentinelIntact(StoreAll(block, writes, w), w)
  {
    TrailerStays(block, writes, size, w);
    FreeVerdictExact(block, writes, size, w);
  }
}
