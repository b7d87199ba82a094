/** The search of an EDID for the HDMI physical address (cecd/src/device.rs). */
module Edid {
  import opened Wire

  /** A CTA extension block the scan looks into. */
  predicate Accepted(edid: bytes, block: nat) {
    && block >= 128 && block % 128 == 0 && block + 128 <= |edid|
    && (edid[block] == 2 || edid[block + 1] >= 3)
  }

  /** Where the block's data blocks end: at the declared descriptor offset, if that is plausible. */
  function End(edid: bytes, block: nat): nat
    requires block + 128 <= |edid|
  {
    block + (if 4 <= edid[block + 2] < 127 then edid[block + 2] else 127)
  }

  function SizeOf(header: u8): (size: nat)
    ensures 1 <= size <= 32
  {
    header % 0x20 + 1
  }

  predicate IsVendorBlock(header: u8) { header / 0x20 == 3 }

  /** The data blocks met from off on: each starts where the one before ends, and an oversized one is the last. */
  function Walk(edid: bytes, end: nat, off: nat): (offsets: seq<nat>)
    ensures forall i :: 0 <= i < |offsets| ==> off <= offsets[i] < end && offsets[i] + 1 < |edid|
    decreases end - off
  {
    if off + 1 >= |edid| || off >= end then []
    else
      var size := SizeOf(edid[off]);
      if size >= 6 && off + size > end then [off] else [off] + Walk(edid, end, off + size)
  }

  function DataBlocks(edid: bytes, block: nat): seq<nat>
    requires Accepted(edid, block)
  {
    Walk(edid, End(edid, block), block + 4)
  }

  /** The HDMI identifier 00-0C-03, as it is stored behind a data block's header. */
  predicate HasHdmiOui(edid: bytes, off: nat)
    requires off + 4 <= |edid|
  {
    edid[off + 1..off + 4] == [0x03, 0x0C, 0x00]
  }

  /** A vendor-specific data block carrying the HDMI identifier and an address, inside the bound. */
  predicate IsHdmi(edid: bytes, end: nat, off: nat)
    requires off < end < |edid|
  {
    && SizeOf(edid[off]) >= 6 && off + SizeOf(edid[off]) <= end
    && IsVendorBlock(edid[off])
    && HasHdmiOui(edid, off)
  }

  predicate HdmiAt(edid: bytes, block: nat, k: nat) {
    && Accepted(edid, block) && k < |DataBlocks(edid, block)|
    && IsHdmi(edid, End(edid, block), DataBlocks(edid, block)[k])
  }

  /** The first HDMI data block in walk order: no earlier one in its block, none in an earlier block. */
  ghost predicate First(edid: bytes, block: nat, k: nat) {
    && HdmiAt(edid, block, k)
    && (forall k': nat :: 0 <= k' < k ==> !HdmiAt(edid, block, k'))
    && (forall block': nat, k': nat :: block' < block ==> !HdmiAt(edid, block', k'))
  }

  function AddressAt(edid: bytes, block: nat, k: nat): u16
    requires HdmiAt(edid, block, k)
  {
    var off := DataBlocks(edid, block)[k];
    var high: int, low: int := edid[off + 4], edid[off + 5];
    high * 0x100 + low
  }

  /** The address of the first HDMI data block, or nothing if there is no HDMI data block at all. */
  ghost predicate IsFirstAddress(edid: bytes, r: Option<u16>) {
    if r.None? then forall block: nat, k: nat :: !HdmiAt(edid, block, k)
    else exists block: nat, k: nat :: First(edid, block, k) && r.value == AddressAt(edid, block, k)
  }

  /** The scan of block has met exactly seen, none of it an HDMI block, and stands at off. */
  ghost predicate Scanned(edid: bytes, block: nat, seen: seq<nat>, off: nat) {
    && Accepted(edid, block)
    && DataBlocks(edid, block) == seen + Walk(edid, End(edid, block), off)
    && (forall k: nat :: k < |seen| ==> !HdmiAt(edid, block, k))
  }

  ghost predicate Clean(edid: bytes, block: nat) {
    forall k: nat :: !HdmiAt(edid, block, k)
  }

  ghost predicate CleanBelow(edid: bytes, block: nat) {
    && block >= 128 && block % 128 == 0
    && forall b: nat :: b < block ==> Clean(edid, b)
  }

  lemma {:induction false} NothingBefore(edid: bytes)
    ensures CleanBelow(edid, 128)
  {}

  lemma {:induction false} NotAccepted(edid: bytes, block: nat)
    requires block + 128 <= |edid| && edid[block] != 2 && edid[block + 1] < 3
    ensures Clean(edid, block)
  {}

  lemma {:induction false} StartScan(edid: bytes, block: nat)
    requires CleanBelow(edid, block) && block + 128 <= |edid| && (edid[block] == 2 || edid[block + 1] >= 3)
    ensures Scanned(edid, block, [], block + 4)
  {}

  lemma {:induction false} EndOfScan(edid: bytes, block: nat, seen: seq<nat>, off: nat)
    requires block + 128 <= |edid| && Scanned(edid, block, seen, off) && off >= End(edid, block)
    ensures Clean(edid, block)
  {}

  /** The tests of the loop body, one by one. */
  lemma {:induction false} Tested(edid: bytes, end: nat, off: nat)
    requires off < end < |edid|
    ensures IsHdmi(edid, end, off) <==>
      && SizeOf(edid[off]) >= 6 && off + SizeOf(edid[off]) <= end
      && IsVendorBlock(edid[off]) && HasHdmiOui(edid, off)
  {}

  lemma {:induction false} Skip(edid: bytes, block: nat, seen: seq<nat>, off: nat)
    requires Scanned(edid, block, seen, off)
    requires off + 1 < |edid| && off < End(edid, block) && !IsHdmi(edid, End(edid, block), off)
    ensures
      var size := SizeOf(edid[off]);
      if size >= 6 && off + size > End(edid, block) then Clean(edid, block)
      else Scanned(edid, block, seen + [off], off + size)
  {
    assert DataBlocks(edid, block)[|seen|] == off;
  }

  lemma {:induction false} Found(edid: bytes, block: nat, seen: seq<nat>, off: nat)
    requires Scanned(edid, block, seen, off) && CleanBelow(edid, block)
    requires off + 1 < |edid| && off < End(edid, block) && IsHdmi(edid, End(edid, block), off)
    ensures off + 6 <= |edid|
    ensures var high: int, low: int := edid[off + 4], edid[off + 5]; IsFirstAddress(edid, Some(high * 0x100 + low))
  {
    assert DataBlocks(edid, block)[|seen|] == off;
    assert HdmiAt(edid, block, |seen|);
    forall b: nat, k: nat | b < block ensures !HdmiAt(edid, b, k) {
      assert Clean(edid, b);
    }
    assert First(edid, block, |seen|);
  }

  lemma {:induction false} NextBlock(edid: bytes, block: nat)
    requires CleanBelow(edid, block) && Clean(edid, block)
    ensures CleanBelow(edid, block + 128)
  {
    forall b: nat | block < b < block + 128 ensures Clean(edid, b) {
      assert !Accepted(edid, b) by { assert (b - block) % 128 == b - block; }
    }
  }

  lemma {:induction false} NoneLeft(edid: bytes, block: nat)
    requires CleanBelow(edid, block) && block + 128 > |edid|
    ensures IsFirstAddress(edid, None)
  {
    forall b: nat, k: nat ensures !HdmiAt(edid, b, k) {
      assert b < block ==> Clean(edid, b);
    }
  }

  /** DrmConnector::parse_hdmi_edid_pa */
  method ParseHdmiEdidPa(edid: bytes) returns (r: Option<u16>)
    ensures IsFirstAddress(edid, r)
  {
    hide SizeOf, IsVendorBlock, Accepted, Walk, DataBlocks, HasHdmiOui, IsHdmi, HdmiAt, First, AddressAt;
    hide IsFirstAddress, Scanned, Clean, CleanBelow;
    var block := 128;
    NothingBefore(edid);
    while block + 128 <= |edid|
      invariant block >= 128
      invariant CleanBelow(edid, block)
      decreases |edid| - block
    {
      if edid[block] != 2 && edid[block + 1] < 3 {
        NotAccepted(edid, block);
        NextBlock(edid, block);
        block := block + 128;
        continue;
      }
      var end := block + 127;
      if edid[block + 2] >= 4 && edid[block + 2] < 127 {
        end := block + edid[block + 2];
      }
      var offset := block + 4;
      ghost var seen: seq<nat> := [];
      StartScan(edid, block);
      while offset + 1 < |edid| && offset < end
        invariant end == End(edid, block)
        invariant Scanned(edid, block, seen, offset)
        decreases end - offset
      {
        var header := edid[offset];
        var size := SizeOf(header);
        ghost var here := offset;
        Tested(edid, end, offset);
        if size < 6 {
          Skip(edid, block, seen, offset);
          seen, offset := seen + [here], offset + size;
          continue;
        }
        if offset + size > end {
          Skip(edid, block, seen, offset);
          break;
        }
        if !IsVendorBlock(header) {
          Skip(edid, block, seen, offset);
          seen, offset := seen + [here], offset + size;
          continue;
        }
        if !HasHdmiOui(edid, offset) {
          Skip(edid, block, seen, offset);
          seen, offset := seen + [here], offset + size;
          continue;
        }
        Found(edid, block, seen, offset);
        var high: int, low: int := edid[offset + 4], edid[offset + 5];
        return Some(high * 0x100 + low);
      }
      if offset >= end { EndOfScan(edid, block, seen, offset); }
      NextBlock(edid, block);
      block := block + 128;
    }
    NoneLeft(edid, block);
    r := None;
  }

  /** There is only one first block, so the answer is determined by the bytes. */
  lemma {:induction false} FirstAddressIsUnique(edid: bytes, r1: Option<u16>, r2: Option<u16>)
    requires IsFirstAddress(edid, r1) && IsFirstAddress(edid, r2)
    ensures r1 == r2
  {
    if r1.Some? && r2.Some? {
      var b1: nat, k1: nat :| First(edid, b1, k1) && r1.value == AddressAt(edid, b1, k1);
      var b2: nat, k2: nat :| First(edid, b2, k2) && r2.value == AddressAt(edid, b2, k2);
      assert HdmiAt(edid, b1, k1) && HdmiAt(edid, b2, k2);
    }
  }

  /** The k-th data block of a walk starts where the one before it ends. */
  predicate Adjacent(edid: bytes, w: seq<nat>, k: nat)
    requires 0 < k < |w| && w[k - 1] < |edid|
  {
    w[k] == w[k - 1] + SizeOf(edid[w[k - 1]])
  }

  ghost predicate Tiles(edid: bytes, w: seq<nat>, off: nat, end: nat) {
    && (forall k :: 0 <= k < |w| ==> w[k] < |edid|)
    && (w == [] <==> off >= end)
    && (w != [] ==> w[0] == off && w[|w| - 1] + SizeOf(edid[w[|w| - 1]]) >= end)
    && (forall k :: 0 < k < |w| ==> Adjacent(edid, w, k))
  }

  lemma {:induction false} NothingToTile(edid: bytes, off: nat, end: nat)
    requires off >= end
    ensures Tiles(edid, [], off, end)
  {}

  lemma {:induction false} TilesPrepend(edid: bytes, rest: seq<nat>, off: nat, end: nat)
    requires off < end < |edid|
    requires if rest == [] then off + SizeOf(edid[off]) >= end else Tiles(edid, rest, off + SizeOf(edid[off]), end)
    ensures Tiles(edid, [off] + rest, off, end)
  {
    hide SizeOf;
    var w := [off] + rest;
    assert rest != [] ==> w[|w| - 1] == rest[|rest| - 1];
    forall k | 0 < k < |w| ensures w[k - 1] < |edid| && Adjacent(edid, w, k) {
      assert w[k] == rest[k - 1];
      if 1 < k {
        assert Adjacent(edid, rest, k - 1);
      }
    }
  }

  /**
   * What determines a walk: it starts at off, each data block starts where the one before ends, and it runs
   * until one reaches the bound.
   */
  lemma {:induction false} WalkTilesTheBlock(edid: bytes, end: nat, off: nat)
    requires end < |edid|
    ensures Tiles(edid, Walk(edid, end, off), off, end)
    decreases end - off
  {
    hide SizeOf, Tiles;
    if off < end {
      var size := SizeOf(edid[off]);
      if size < 6 || off + size <= end {
        WalkTilesTheBlock(edid, end, off + size);
        assert Walk(edid, end, off) == [off] + Walk(edid, end, off + size);
        hide Walk;
        TilesPrepend(edid, Walk(edid, end, off + size), off, end);
      } else {
        TilesPrepend(edid, [], off, end);
        assert [off] + [] == [off];
      }
    } else {
      NothingToTile(edid, off, end);
    }
  }

  // ---------------------------------------------------------------- the answer told by the bytes

  /** An extension block of the second kind, or of version 3 on. */
  predicate Extension(edid: bytes, block: nat) {
    block >= 128 && block % 128 == 0 && block + 128 <= |edid| && (edid[block] == 2 || edid[block + 1] > 2)
  }

  /** Where its data blocks stop: at the offset in its third byte, if that lies behind it and inside the block. */
  function Bound(edid: bytes, block: nat): nat
    requires block + 128 <= |edid|
  {
    if 3 < edid[block + 2] <= 126 then block + edid[block + 2] else block + 127
  }

  /** One data block ends where the next begins; one that could hold an address must end in front of the bound. */
  predicate Link(edid: bytes, bound: nat, off: nat, next: nat) {
    off < bound && off < |edid| && next == off + 1 + edid[off] % 32 && (edid[off] % 32 >= 5 ==> next <= bound)
  }

  /** The data blocks from off on, one linked to the next, the last of them begun inside the bound. */
  ghost predicate Chain(edid: bytes, bound: nat, off: nat, path: seq<nat>) {
    && path != [] && path[0] == off && path[|path| - 1] < bound && path[|path| - 1] + 1 < |edid|
    && forall i :: 0 < i < |path| ==> Link(edid, bound, path[i - 1], path[i])
  }

  /** Tag 3 and at least five bytes, 03 0C 00 in front, all of it inside the bound. */
  predicate HdmiBytes(edid: bytes, bound: nat, off: nat) {
    && off + 6 <= |edid| && 0x65 <= edid[off] <= 0x7F && off + 1 + edid[off] - 0x60 <= bound
    && edid[off + 1] == 0x03 && edid[off + 2] == 0x0C && edid[off + 3] == 0x00
  }

  /** A chain of data blocks of an extension whose last is an HDMI block. */
  ghost predicate HdmiChain(edid: bytes, block: nat, path: seq<nat>) {
    && Extension(edid, block) && Chain(edid, Bound(edid, block), block + 4, path)
    && HdmiBytes(edid, Bound(edid, block), path[|path| - 1])
  }

  /** No other chain that ends so is in an earlier extension, or shorter in the same. */
  ghost predicate Earliest(edid: bytes, block: nat, path: seq<nat>) {
    && HdmiChain(edid, block, path)
    && forall b, p :: HdmiChain(edid, b, p) ==> block < b || (block == b && |path| <= |p|)
  }

  lemma {:induction false} BoundsAgree(edid: bytes, block: nat)
    ensures Accepted(edid, block) <==> Extension(edid, block)
    ensures block + 128 <= |edid| ==> End(edid, block) == Bound(edid, block)
  {}

  lemma {:induction false} LinkIsStep(edid: bytes, end: nat, off: nat, next: nat)
    requires off < end < |edid|
    ensures Link(edid, end, off, next) <==>
      next == off + SizeOf(edid[off]) && !(SizeOf(edid[off]) >= 6 && off + SizeOf(edid[off]) > end)
  {}

  lemma {:induction false} HdmiIsBytes(edid: bytes, end: nat, off: nat)
    requires off < end < |edid|
    ensures IsHdmi(edid, end, off) <==> HdmiBytes(edid, end, off)
  {
    assert off + 4 <= |edid| ==> edid[off + 1..off + 4] == [edid[off + 1], edid[off + 2], edid[off + 3]];
  }

  /** A chain is the front of the walk. */
  lemma {:induction false} ChainIsWalked(edid: bytes, end: nat, off: nat, path: seq<nat>)
    requires end < |edid| && Chain(edid, end, off, path)
    ensures path <= Walk(edid, end, off)
    decreases |path|
  {
    hide SizeOf, Link;
    if |path| == 1 {
      assert path == [off];
    } else {
      assert Link(edid, end, path[0], path[1]);
      LinkBounds(edid, end, off, path[1]);
      LinkIsStep(edid, end, off, path[1]);
      ChainTail(edid, end, off, path);
      ChainIsWalked(edid, end, path[1], path[1..]);
      assert path == [off] + path[1..];
    }
  }

  lemma {:induction false} LinkBounds(edid: bytes, end: nat, off: nat, next: nat)
    requires Link(edid, end, off, next)
    ensures off < end && off < next
  {}

  lemma {:induction false} ChainTail(edid: bytes, end: nat, off: nat, path: seq<nat>)
    requires Chain(edid, end, off, path) && |path| > 1
    ensures Chain(edid, end, path[1], path[1..])
  {
    hide Link;
    var rest := path[1..];
    forall i | 0 < i < |rest| ensures Link(edid, end, rest[i - 1], rest[i]) {
      assert Link(edid, end, path[i], path[i + 1]);
    }
  }

  /** Every front of the walk is a chain. */
  lemma {:induction false} WalkIsChain(edid: bytes, end: nat, off: nat, k: nat)
    requires end < |edid| && k < |Walk(edid, end, off)|
    ensures Chain(edid, end, off, Walk(edid, end, off)[..k + 1])
    decreases end - off
  {
    hide SizeOf, Link;
    var w := Walk(edid, end, off);
    if k == 0 {
      assert w[..1] == [off];
    } else {
      var next := off + SizeOf(edid[off]);
      LinkIsStep(edid, end, off, next);
      WalkIsChain(edid, end, next, k - 1);
      var rest := Walk(edid, end, next);
      assert w[..k + 1] == [off] + rest[..k];
      hide Walk;
      ChainPrepends(edid, end, off, rest[..k]);
    }
  }

  lemma {:induction false} ChainPrepends(edid: bytes, end: nat, off: nat, rest: seq<nat>)
    requires rest != [] && Chain(edid, end, rest[0], rest) && Link(edid, end, off, rest[0])
    ensures Chain(edid, end, off, [off] + rest)
  {
    hide Link;
    var path := [off] + rest;
    forall i | 0 < i < |path| ensures Link(edid, end, path[i - 1], path[i]) {
      if i > 1 { assert Link(edid, end, rest[i - 2], rest[i - 1]); }
    }
  }

  lemma {:induction false} HdmiAtIsChain(edid: bytes, block: nat, k: nat)
    requires Accepted(edid, block) && k < |DataBlocks(edid, block)|
    ensures HdmiAt(edid, block, k) <==> HdmiChain(edid, block, DataBlocks(edid, block)[..k + 1])
  {
    BoundsAgree(edid, block);
    WalkIsChain(edid, End(edid, block), block + 4, k);
    HdmiIsBytes(edid, End(edid, block), DataBlocks(edid, block)[k]);
    hide Walk, Chain, IsHdmi, HdmiBytes, Accepted, Extension, End, Bound;
  }

  lemma {:induction false} ChainIsHdmiAt(edid: bytes, block: nat, path: seq<nat>)
    requires HdmiChain(edid, block, path)
    ensures Accepted(edid, block) && 0 < |path| <= |DataBlocks(edid, block)|
    ensures path == DataBlocks(edid, block)[..|path|] && HdmiAt(edid, block, |path| - 1)
    ensures path[|path| - 1] == DataBlocks(edid, block)[|path| - 1]
  {
    BoundsAgree(edid, block);
    ChainIsWalked(edid, End(edid, block), block + 4, path);
    hide Walk, IsHdmi, HdmiBytes, Accepted, Extension, End, Bound;
    HdmiAtIsChain(edid, block, |path| - 1);
  }

  lemma {:induction false} HdmiAtIsSome(edid: bytes, block: nat, k: nat)
    requires HdmiAt(edid, block, k)
    ensures Accepted(edid, block) && k < |DataBlocks(edid, block)|
  {}

  /** The first HDMI block of the search is the one with the earliest chain. */
  lemma {:induction false} FirstIsEarliest(edid: bytes, block: nat, k: nat)
    requires First(edid, block, k)
    ensures Accepted(edid, block) && k < |DataBlocks(edid, block)|
    ensures Earliest(edid, block, DataBlocks(edid, block)[..k + 1])
  {
    HdmiAtIsSome(edid, block, k);
    HdmiAtIsChain(edid, block, k);
    hide HdmiChain, DataBlocks, HdmiAt;
    forall b, p | HdmiChain(edid, b, p) ensures block < b || (block == b && k + 1 <= |p|) {
      ChainIsHdmiAt(edid, b, p);
    }
  }

  lemma {:induction false} EarliestIsFirst(edid: bytes, block: nat, path: seq<nat>)
    requires Earliest(edid, block, path)
    ensures path != [] && First(edid, block, |path| - 1)
  {
    hide HdmiChain, DataBlocks, HdmiAt;
    ChainIsHdmiAt(edid, block, path);
    forall b: nat, k: nat | HdmiAt(edid, b, k) ensures block < b || (block == b && |path| - 1 <= k) {
      HdmiAtIsSome(edid, b, k);
      HdmiAtIsChain(edid, b, k);
      assert |DataBlocks(edid, b)[..k + 1]| == k + 1;
    }
  }

  /** The two bytes behind the identifier. */
  predicate Stands(edid: bytes, path: seq<nat>, address: u16) {
    && path != [] && path[|path| - 1] + 6 <= |edid|
    && address / 256 == edid[path[|path| - 1] + 4] && address % 256 == edid[path[|path| - 1] + 5]
  }

  /**
   * What the search returns, told by the bytes: the address behind the first HDMI identifier of the first extension
   * that has one in a data block of its own, and nothing exactly if there is none.
   */
  lemma {:induction false} AddressByBytes(edid: bytes, r: Option<u16>)
    ensures IsFirstAddress(edid, r) <==>
      if r.None? then forall block: nat, path :: !HdmiChain(edid, block, path)
      else exists block: nat, path :: Earliest(edid, block, path) && Stands(edid, path, r.value)
  {
    hide HdmiChain, DataBlocks, HdmiAt, Earliest, AddressAt, Stands;
    if r.None? {
      NoneByBytes(edid);
    } else {
      if block: nat, k: nat :| First(edid, block, k) && r.value == AddressAt(edid, block, k) {
        FirstIsEarliest(edid, block, k);
        AddressStands(edid, block, k, r.value);
      }
      if block: nat, path :| Earliest(edid, block, path) && Stands(edid, path, r.value) {
        EarliestIsFirst(edid, block, path);
        StandsAt(edid, block, path, r.value);
      }
    }
  }

  /** In particular an HDMI block right at the start of an extension counts, unless an earlier extension has one. */
  lemma {:induction false} FirstDataBlockCounts(edid: bytes, block: nat, address: u16)
    requires block >= 128 && block % 128 == 0 && block + 128 <= |edid| && edid[block] == 2
    requires HdmiBytes(edid, Bound(edid, block), block + 4)
    requires forall b: nat, p :: b < block ==> !HdmiChain(edid, b, p)
    requires address / 256 == edid[block + 8] && address % 256 == edid[block + 9]
    ensures IsFirstAddress(edid, Some(address))
  {
    var path := [block + 4];
    assert HdmiChain(edid, block, path);
    hide HdmiChain, HdmiBytes;
    forall b, p | HdmiChain(edid, b, p) ensures block < b || (block == b && |path| <= |p|) {
      ChainIsHdmiAt(edid, b, p);
    }
    assert Earliest(edid, block, path) && Stands(edid, path, address);
    AddressByBytes(edid, Some(address));
  }

  lemma {:induction false} NoneByBytes(edid: bytes)
    ensures IsFirstAddress(edid, None) <==> forall block: nat, path :: !HdmiChain(edid, block, path)
  {
    hide HdmiChain, DataBlocks, HdmiAt;
    if block: nat, k: nat :| HdmiAt(edid, block, k) {
      HdmiAtIsSome(edid, block, k);
      HdmiAtIsChain(edid, block, k);
    }
    if block: nat, path :| HdmiChain(edid, block, path) {
      ChainIsHdmiAt(edid, block, path);
    }
  }

  lemma {:induction false} AddressStands(edid: bytes, block: nat, k: nat, address: u16)
    requires First(edid, block, k) && address == AddressAt(edid, block, k)
    requires Accepted(edid, block) && k < |DataBlocks(edid, block)|
    ensures Stands(edid, DataBlocks(edid, block)[..k + 1], address)
  {
    var off := DataBlocks(edid, block)[k];
    HdmiIsBytes(edid, End(edid, block), off);
    hide DataBlocks;
    var path := DataBlocks(edid, block)[..k + 1];
    assert path[|path| - 1] == DataBlocks(edid, block)[k];
  }

  lemma {:induction false} StandsAt(edid: bytes, block: nat, path: seq<nat>, address: u16)
    requires Earliest(edid, block, path) && Stands(edid, path, address) && path != [] && First(edid, block, |path| - 1)
    ensures address == AddressAt(edid, block, |path| - 1)
  {
    hide DataBlocks, HdmiChain;
    ChainIsHdmiAt(edid, block, path);
  }
}
