/**
 Ironwood extended spending keys: hardened derivation in the manner of ZIP 32, the 73-byte
 serialization, and the fallback to the older layout without a parent tag.
 */
module IronwoodKeys {
  import opened Base
  import opened Bytes

  const HARDENED: u32 := 0x8000_0000

  /** The hashes and key checks of the external libraries. */
  datatype Crypto = Crypto(
    masterHash: seq<byte> -> seq<byte>,
    childHash: (seq<byte>, seq<byte>, u32) -> seq<byte>,
    isSpendingKey: seq<byte> -> bool,
    fvkTag: seq<byte> -> seq<byte>)
  {
    /** Output lengths; nothing else is assumed of the hashes. */
    ghost predicate Valid() {
      && (forall seed :: |masterHash(seed)| == 64)
      && (forall chainCode, sk, index :: |childHash(chainCode, sk, index)| == 64)
      && (forall sk :: |fvkTag(sk)| == 4)
    }
  }

  datatype Key = Key(sk: seq<byte>, chainCode: seq<byte>, depth: byte, tag: seq<byte>, childIndex: u32)

  const NO_TAG: seq<byte> := [0, 0, 0, 0]

  // ----- derivation

  function Master(c: Crypto, seed: seq<byte>): Result<Key, Error>
    requires c.Valid()
  {
    if |seed| < 32 || |seed| > 252 then Err(InvalidSeed)
    else
      var i := c.masterHash(seed);
      if !c.isSpendingKey(i[..32]) then Err(InvalidKey)
      else Ok(Key(i[..32], i[32..64], 0, NO_TAG, 0))
  }

  /** The depth is a single byte and wraps around. */
  function DeriveChild(c: Crypto, k: Key, index: u32): Result<Key, Error>
    requires c.Valid()
  {
    if index >= HARDENED then Err(InvalidKey)
    else
      var i := c.childHash(k.chainCode, k.sk, index + HARDENED);
      if !c.isSpendingKey(i[..32]) then Err(InvalidKey)
      else Ok(Key(i[..32], i[32..64], (k.depth + 1) % 256, c.fvkTag(k.sk), index + HARDENED))
  }

  function DerivePath(c: Crypto, k: Key, path: seq<u32>): Result<Key, Error>
    requires c.Valid()
  {
    if path == [] then Ok(k)
    else
      match DerivePath(c, k, path[..|path| - 1])
      case Err(e) => Err(e)
      case Ok(parent) => DeriveChild(c, parent, path[|path| - 1])
  }

  /** The account key m/32'/coin'/account'. */
  function DeriveAccount(c: Crypto, k: Key, coinType: u32, account: u32): Result<Key, Error>
    requires c.Valid()
  {
    match DeriveChild(c, k, 32)
    case Err(e) => Err(e)
    case Ok(purpose) =>
      match DeriveChild(c, purpose, coinType)
      case Err(e) => Err(e)
      case Ok(coin) => DeriveChild(c, coin, account)
  }

  /** The account key is the path 32, coin type, account, and every step of it a child of the one before. */
  lemma AccountIsPath(c: Crypto, k: Key, coinType: u32, account: u32)
    requires c.Valid()
    ensures DeriveAccount(c, k, coinType, account) == DerivePath(c, k, [32, coinType, account])
    ensures DeriveAccount(c, k, coinType, account).Ok? ==>
              && coinType < 0x8000_0000 && account < 0x8000_0000
              && exists purpose, coin ::
                   && IsChildOf(c, purpose, k, 32)
                   && IsChildOf(c, coin, purpose, coinType)
                   && IsChildOf(c, DeriveAccount(c, k, coinType, account).value, coin, account)
  {
    if DeriveAccount(c, k, coinType, account).Ok? {
      AccountLineage(c, k, coinType, account);
    }
    var path := [32, coinType, account];
    assert path[..2] == [32, coinType] && path[..2][..1] == [32] && path[..2][..1][..0] == [];
    assert DerivePath(c, k, [32]) == DeriveChild(c, k, 32) by { assert [32][..0] == []; }
    assert [32, coinType][..1] == [32];
  }

  /** The key and the chain code are the two halves of the hash, which nothing else is taken from. */
  ghost predicate IsSplitOf(k: Key, hash: seq<byte>) {
    |k.sk| == 32 && |k.chainCode| == 32 && k.sk + k.chainCode == hash
  }

  /** When a master key exists, and what it holds. */
  lemma MasterExactly(c: Crypto, seed: seq<byte>)
    requires c.Valid()
    ensures Master(c, seed).Ok? <==> 32 <= |seed| <= 252 && c.isSpendingKey(c.masterHash(seed)[..32])
    ensures Master(c, seed) == Err(InvalidSeed) <==> !(32 <= |seed| <= 252)
    ensures Master(c, seed).Ok? ==>
              var k := Master(c, seed).value;
              IsSplitOf(k, c.masterHash(seed)) && k.depth == 0 && k.tag == [0, 0, 0, 0] && k.childIndex == 0
  {
  }

  /** `child` is made from the parent's chain code, key and the hardened index. */
  ghost predicate IsChildOf(c: Crypto, child: Key, parent: Key, index: u32)
    requires index < 0x8000_0000
  {
    && IsSplitOf(child, c.childHash(parent.chainCode, parent.sk, index + 0x8000_0000))
    && child.tag == c.fvkTag(parent.sk)
    && child.childIndex == index + 0x8000_0000
    && child.depth == (if parent.depth == 255 then 0 else parent.depth + 1)
  }

  /** When a child exists, and what it holds. */
  lemma ChildExactly(c: Crypto, k: Key, index: u32)
    requires c.Valid()
    ensures DeriveChild(c, k, index).Ok? <==>
            && index < 0x8000_0000
            && c.isSpendingKey(c.childHash(k.chainCode, k.sk, index + 0x8000_0000)[..32])
    ensures DeriveChild(c, k, index).Ok? ==> IsChildOf(c, DeriveChild(c, k, index).value, k, index)
  {
  }

  /** An account key is three generations below the given key, under 32, the coin type and the account. */
  lemma AccountLineage(c: Crypto, k: Key, coinType: u32, account: u32)
    requires c.Valid()
    requires DeriveAccount(c, k, coinType, account).Ok?
    ensures coinType < 0x8000_0000 && account < 0x8000_0000
    ensures exists purpose, coin ::
              && IsChildOf(c, purpose, k, 32)
              && IsChildOf(c, coin, purpose, coinType)
              && IsChildOf(c, DeriveAccount(c, k, coinType, account).value, coin, account)
  {
    var purpose := DeriveChild(c, k, 32).value;
    var coin := DeriveChild(c, purpose, coinType).value;
    ChildExactly(c, k, 32);
    ChildExactly(c, purpose, coinType);
    ChildExactly(c, coin, account);
  }

  // ----- bytes

  function ToBytes(k: Key): seq<byte> {
    [k.depth] + k.tag + ToLittleEndian(k.childIndex) + k.chainCode + k.sk
  }

  /** The older layout, four bytes shorter. */
  function ToLegacyBytes(k: Key): seq<byte> {
    [k.depth] + ToLittleEndian(k.childIndex) + k.chainCode + k.sk
  }

  function ReadIndex(b: seq<byte>, at: nat): u32
    requires at + 4 <= |b|
  {
    FromLittleEndian(b[at], b[at + 1], b[at + 2], b[at + 3])
  }

  /** The fields read in the current layout. */
  function ReadCurrent(b: seq<byte>): Key
    requires |b| >= 73
  {
    Key(b[41..73], b[9..41], b[0], b[1..5], ReadIndex(b, 5))
  }

  function ReadLegacy(c: Crypto, b: seq<byte>): Key
    requires |b| >= 73
  {
    Key(b[37..69], b[5..37], b[0], if b[0] == 0 then NO_TAG else c.fvkTag(b[37..69]), ReadIndex(b, 1))
  }

  /** What derivation produces: a root with index zero, or a tagged child with a hardened index. */
  predicate IsPlausible(k: Key) {
    if k.depth == 0 then k.childIndex == 0 else k.childIndex >= HARDENED && k.tag != NO_TAG
  }

  function FromBytes(c: Crypto, b: seq<byte>): Result<Key, Error> {
    if |b| < 73 then Err(InvalidKey)
    else
      var current := ReadCurrent(b);
      if IsPlausible(current) && c.isSpendingKey(current.sk) then Ok(current)
      else
        var legacy := ReadLegacy(c, b);
        if c.isSpendingKey(legacy.sk) then Ok(legacy) else Err(InvalidKey)
  }

  predicate SameKeyMaterial(a: Key, b: Key) {
    a.depth == b.depth && a.childIndex == b.childIndex && a.chainCode == b.chainCode && a.sk == b.sk
  }

  /** Field lengths, and a spending key that its library accepts. */
  predicate IsShaped(c: Crypto, k: Key) {
    |k.sk| == 32 && |k.chainCode| == 32 && |k.tag| == 4 && c.isSpendingKey(k.sk)
  }

  lemma CurrentLayout(c: Crypto, k: Key, rest: seq<byte>)
    requires IsShaped(c, k)
    ensures |ToBytes(k)| == 73
    ensures ReadCurrent(ToBytes(k) + rest) == k
  {
    var b := ToBytes(k) + rest;
    var i := ToLittleEndian(k.childIndex);
    assert b == [k.depth] + k.tag + (i + k.chainCode + k.sk + rest);
    MiddleSlice([k.depth], k.tag, i + k.chainCode + k.sk + rest);
    assert b == ([k.depth] + k.tag + i) + k.chainCode + (k.sk + rest);
    MiddleSlice([k.depth] + k.tag + i, k.chainCode, k.sk + rest);
    MiddleSlice([k.depth] + k.tag + i + k.chainCode, k.sk, rest);
    assert b[5] == i[0] && b[6] == i[1] && b[7] == i[2] && b[8] == i[3];
    LittleEndianRoundTrip(k.childIndex);
  }

  /** Where each field is in the serialized key. */
  lemma SerializedLayout(c: Crypto, k: Key)
    requires IsShaped(c, k)
    ensures var b := ToBytes(k);
            && |b| == 73
            && b[0] == k.depth
            && b[1..5] == k.tag
            && b[5] as int + 256 * (b[6] as int) + 65536 * (b[7] as int) + 16777216 * (b[8] as int) == k.childIndex
            && b[9..41] == k.chainCode
            && b[41..73] == k.sk
  {
    CurrentView(c, k);
    assert ReadIndex(ToBytes(k), 5) == k.childIndex;
  }

  lemma MiddleSlice(a: seq<byte>, b: seq<byte>, c: seq<byte>)
    ensures (a + b + c)[|a|..|a| + |b|] == b
  {
  }

  lemma LegacyLayout(c: Crypto, k: Key, rest: seq<byte>)
    requires IsShaped(c, k) && |rest| >= 4
    ensures |ToLegacyBytes(k)| == 69
    ensures SameKeyMaterial(ReadLegacy(c, ToLegacyBytes(k) + rest), k)
  {
    var b := ToLegacyBytes(k) + rest;
    var i := ToLittleEndian(k.childIndex);
    assert b[1] == i[0] && b[2] == i[1] && b[3] == i[2] && b[4] == i[3];
    LittleEndianRoundTrip(k.childIndex);
    assert b[5..37] == k.chainCode;
    assert b[37..69] == k.sk;
  }

  // ----- round trips

  /** A plausible key comes back unchanged, whatever follows its bytes. */
  lemma PlausibleRoundTrip(c: Crypto, k: Key, rest: seq<byte>)
    requires IsShaped(c, k) && IsPlausible(k)
    ensures FromBytes(c, ToBytes(k) + rest) == Ok(k)
  {
    CurrentLayout(c, k, rest);
  }

  /** Read in the older layout, the tag of a current key takes the place of its index. */
  lemma LegacyViewOfCurrent(c: Crypto, k: Key)
    requires IsShaped(c, k)
    ensures |ToBytes(k)| == 73
    ensures ReadLegacy(c, ToBytes(k)).childIndex == FromLittleEndian(k.tag[0], k.tag[1], k.tag[2], k.tag[3])
    ensures k.depth == 0 ==> ReadLegacy(c, ToBytes(k)).tag == NO_TAG
  {
    var b := ToBytes(k);
    assert b[0] == k.depth;
    assert b[1] == k.tag[0] && b[2] == k.tag[1] && b[3] == k.tag[2] && b[4] == k.tag[3];
  }

  lemma CurrentView(c: Crypto, k: Key)
    requires IsShaped(c, k)
    ensures |ToBytes(k)| == 73
    ensures ReadCurrent(ToBytes(k)) == k
  {
    CurrentLayout(c, k, []);
    assert ToBytes(k) + [] == ToBytes(k);
  }

  lemma TagIsZero(tag: seq<byte>)
    requires |tag| == 4
    ensures tag == NO_TAG ==> FromLittleEndian(tag[0], tag[1], tag[2], tag[3]) == 0
  {
  }

  /** Bytes that hold an implausible key, and whose older view differs from it, do not give it back. */
  lemma FallbackChangesKey(c: Crypto, b: seq<byte>, k: Key)
    requires |b| >= 73 && ReadCurrent(b) == k && !IsPlausible(k)
    requires ReadLegacy(c, b).childIndex != k.childIndex || ReadLegacy(c, b).tag != k.tag
    ensures FromBytes(c, b) != Ok(k)
  {
    var legacy := ReadLegacy(c, b);
    assert FromBytes(c, b) == if c.isSpendingKey(legacy.sk) then Ok(legacy) else Err(InvalidKey);
  }

  lemma OlderViewDiffers(c: Crypto, k: Key)
    requires IsShaped(c, k)
    requires k.childIndex != 0
    requires k.depth == 0 || k.tag == NO_TAG
    ensures |ToBytes(k)| == 73
    ensures ReadLegacy(c, ToBytes(k)).childIndex != k.childIndex || ReadLegacy(c, ToBytes(k)).tag != k.tag
  {
    LegacyViewOfCurrent(c, k);
    if k.tag == NO_TAG {
      TagIsZero(k.tag);
    }
  }

  /** A child that lost its depth or its tag never comes back unchanged. */
  lemma ImplausibleChangesKey(c: Crypto, k: Key)
    requires IsShaped(c, k)
    requires k.childIndex != 0
    requires k.depth == 0 || k.tag == NO_TAG
    ensures FromBytes(c, ToBytes(k)) != Ok(k)
  {
    CurrentView(c, k);
    OlderViewDiffers(c, k);
    assert !IsPlausible(k);
    FallbackChangesKey(c, ToBytes(k), k);
  }

  lemma ChildShape(c: Crypto, k: Key, index: u32)
    requires c.Valid()
    requires DeriveChild(c, k, index).Ok?
    ensures var child := DeriveChild(c, k, index).value;
            && IsShaped(c, child)
            && child.depth == (k.depth + 1) % 256
            && child.childIndex == index + HARDENED
  {
  }

  lemma NextDepth(n: nat)
    ensures (n % 256 + 1) % 256 == (n + 1) % 256
  {
  }

  /** What a path from the master leads to. */
  lemma {:induction false} PathShape(c: Crypto, seed: seq<byte>, path: seq<u32>)
    requires c.Valid()
    requires Master(c, seed).Ok?
    requires DerivePath(c, Master(c, seed).value, path).Ok?
    ensures var k := DerivePath(c, Master(c, seed).value, path).value;
            && IsShaped(c, k)
            && k.depth == |path| % 256
            && (if path == [] then k.childIndex == 0 && k.tag == NO_TAG && IsSplitOf(k, c.masterHash(seed))
                else
                  && k.childIndex == path[|path| - 1] + HARDENED
                  && path[|path| - 1] < 0x8000_0000
                  && exists parent ::
                       && DerivePath(c, Master(c, seed).value, path[..|path| - 1]) == Ok(parent)
                       && IsChildOf(c, k, parent, path[|path| - 1]))
  {
    if path != [] {
      var parent := path[..|path| - 1];
      PathShape(c, seed, parent);
      var key := DerivePath(c, Master(c, seed).value, parent).value;
      ChildShape(c, key, path[|path| - 1]);
      ChildExactly(c, key, path[|path| - 1]);
      NextDepth(|parent|);
    }
  }

  /**
   A derived key survives serialization exactly when it is the master, or its depth has not
   wrapped to zero and its parent's tag is not all zeros.
   */
  lemma DerivedKeyRoundTrips(c: Crypto, seed: seq<byte>, path: seq<u32>)
    requires c.Valid()
    requires Master(c, seed).Ok?
    requires DerivePath(c, Master(c, seed).value, path).Ok?
    ensures var k := DerivePath(c, Master(c, seed).value, path).value;
            && |ToBytes(k)| == 73
            && (FromBytes(c, ToBytes(k)) == Ok(k) <==>
                path == [] || (|path| % 256 != 0 && k.tag != NO_TAG))
  {
    PathShape(c, seed, path);
    var k := DerivePath(c, Master(c, seed).value, path).value;
    CurrentLayout(c, k, []);
    if path == [] || (|path| % 256 != 0 && k.tag != NO_TAG) {
      PlausibleRoundTrip(c, k, []);
      assert ToBytes(k) + [] == ToBytes(k);
    } else {
      ImplausibleChangesKey(c, k);
    }
  }

  // ----- the legacy layout

  /** Bytes that the current layout accepts. */
  predicate ReadsAsCurrent(c: Crypto, b: seq<byte>)
    requires |b| >= 73
  {
    IsPlausible(ReadCurrent(b)) && c.isSpendingKey(ReadCurrent(b).sk)
  }

  /** Reading an index identifies its four bytes. */
  lemma SameIndex(b: seq<byte>, i: nat, j: nat)
    requires i + 4 <= |b| && j + 4 <= |b|
    ensures ReadIndex(b, i) == ReadIndex(b, j) <==> b[i..i + 4] == b[j..j + 4]
  {
    var x, y := b[i..i + 4], b[j..j + 4];
    assert x == [b[i], b[i + 1], b[i + 2], b[i + 3]] && y == [b[j], b[j + 1], b[j + 2], b[j + 3]];
    assert x == y <==> x[0] == y[0] && x[1] == y[1] && x[2] == y[2] && x[3] == y[3];
    if ReadIndex(b, i) == ReadIndex(b, j) {
      LittleEndianInjective(x, y);
    }
  }

  /**
   What the fallback reads: depth, index, chain code and key follow each other, and the tag is
   computed from the key itself unless the depth is zero.
   */
  lemma FallbackExactly(c: Crypto, b: seq<byte>)
    requires |b| >= 73 && !ReadsAsCurrent(c, b)
    ensures FromBytes(c, b).Ok? <==> c.isSpendingKey(b[37..69])
    ensures FromBytes(c, b).Ok? ==>
              var k := FromBytes(c, b).value;
              && k.depth == b[0]
              && k.childIndex == b[1] as int + 256 * (b[2] as int) + 65536 * (b[3] as int) + 16777216 * (b[4] as int)
              && k.chainCode == b[5..37]
              && k.sk == b[37..69]
              && k.tag == if b[0] == 0 then [0, 0, 0, 0] else c.fvkTag(b[37..69])
  {
  }

  /** The two layouts find the same key material exactly when the fields repeat with a period of four bytes. */
  lemma LayoutsAgreeExactly(c: Crypto, b: seq<byte>)
    requires |b| >= 73
    ensures SameKeyMaterial(ReadCurrent(b), ReadLegacy(c, b)) <==> b[1..69] == b[5..73]
  {
    SameIndex(b, 5, 1);
    var x, y := b[1..69], b[5..73];
    Subslice(b, 1, 69, 0, 4);
    Subslice(b, 1, 69, 4, 36);
    Subslice(b, 1, 69, 36, 68);
    Subslice(b, 5, 73, 0, 4);
    Subslice(b, 5, 73, 4, 36);
    Subslice(b, 5, 73, 36, 68);
    assert x == x[0..4] + x[4..36] + x[36..68] && y == y[0..4] + y[4..36] + y[36..68];
  }

  lemma Subslice(b: seq<byte>, i: nat, j: nat, low: nat, high: nat)
    requires i + high <= j <= |b| && low <= high
    ensures b[i..j][low..high] == b[i + low..i + high]
  {
    var x, y := b[i..j][low..high], b[i + low..i + high];
    assert |x| == |y| && forall k :: 0 <= k < |x| ==> x[k] == y[k];
  }

  /**
   Bytes in the older layout are 69 long and refused as they stand. With at least four more
   bytes they are read in the current layout if that accepts them, so the key material comes
   back exactly when it does not accept them, or when the bytes repeat so that both layouts
   find the same fields.
   */
  lemma LegacyReadsBack(c: Crypto, k: Key, padding: seq<byte>)
    requires IsShaped(c, k)
    ensures |ToLegacyBytes(k)| == 69
    ensures var b := ToLegacyBytes(k) + padding;
            if |padding| < 4 then FromBytes(c, b) == Err(InvalidKey)
            else
              && FromBytes(c, b).Ok?
              && (ReadsAsCurrent(c, b) ==> FromBytes(c, b).value == ReadCurrent(b))
              && (SameKeyMaterial(FromBytes(c, b).value, k) <==> !ReadsAsCurrent(c, b) || b[1..69] == b[5..73])
  {
    if |padding| >= 4 {
      LegacyLayout(c, k, padding);
      LayoutsAgreeExactly(c, ToLegacyBytes(k) + padding);
    }
  }
}
