/** Script data pushes, and the unlocking scripts built from them. */
module ScriptPush {
  import opened Base
  import opened Bytes

  /** The length header; lengths are truncated to 32 bits by the widest form. */
  function Header(n: nat): seq<byte> {
    if n <= 75 then [n]
    else if n <= 0xff then [0x4c, n]
    else if n <= 0xffff then [0x4d, n % 256, n / 256]
    else [0x4e] + ToLittleEndian(n % U32_LIMIT)
  }

  function Push(data: seq<byte>): seq<byte> {
    Header(|data|) + data
  }

  function PushAll(items: seq<seq<byte>>): seq<byte> {
    if items == [] then [] else Push(items[0]) + PushAll(items[1..])
  }

  /** The items of an unlocking script: three for a refund, four for a redemption. */
  function ScriptItems(sig: seq<byte>, secret: seq<byte>, redeemScript: seq<byte>): seq<seq<byte>> {
    if secret == [] then [sig, [0x51], redeemScript] else [sig, secret, [0x00], redeemScript]
  }

  method BuildP2shScriptSig(sig: seq<byte>, secret: seq<byte>, redeemScript: seq<byte>)
    returns (script: seq<byte>)
    ensures script == PushAll(ScriptItems(sig, secret, redeemScript))
    ensures |sig| < U32_LIMIT && |secret| < U32_LIMIT && |redeemScript| < U32_LIMIT ==>
              ReadAll(script) ==
              Some(if secret == [] then [sig, [0x51], redeemScript] else [sig, secret, [0x00], redeemScript])
  {
    if |sig| < U32_LIMIT && |secret| < U32_LIMIT && |redeemScript| < U32_LIMIT {
      ScriptSigReadsBack(sig, secret, redeemScript);
    }
    script := [];
    if secret == [] {
      script := PushScriptData(script, [], sig);
      script := PushScriptData(script, [sig], [0x51]);
      script := PushScriptData(script, [sig, [0x51]], redeemScript);
      assert [sig, [0x51]] + [redeemScript] == ScriptItems(sig, secret, redeemScript);
    } else {
      script := PushScriptData(script, [], sig);
      script := PushScriptData(script, [sig], secret);
      script := PushScriptData(script, [sig, secret], [0x00]);
      script := PushScriptData(script, [sig, secret, [0x00]], redeemScript);
      assert [sig, secret, [0x00]] + [redeemScript] == ScriptItems(sig, secret, redeemScript);
    }
  }

  /** Appends a push to a script that already holds the pushes of `before`. */
  method PushScriptData(script: seq<byte>, ghost before: seq<seq<byte>>, data: seq<byte>)
    returns (r: seq<byte>)
    requires script == PushAll(before)
    ensures r == script + Push(data) == PushAll(before + [data])
  {
    r := script + Header(|data|);
    r := r + data;
    PushAllSnoc(before, data);
  }

  lemma {:induction false} PushAllSnoc(items: seq<seq<byte>>, data: seq<byte>)
    ensures PushAll(items + [data]) == PushAll(items) + Push(data)
  {
    var all := items + [data];
    if items == [] {
      assert all == [data] && all[1..] == [];
      assert PushAll(all) == Push(data) + PushAll([]);
      assert Push(data) + [] == Push(data) == [] + Push(data);
    } else {
      PushAllSnoc(items[1..], data);
      assert all[0] == items[0] && all[1..] == items[1..] + [data];
      assert PushAll(all) == Push(items[0]) + PushAll(all[1..]);
      ConcatAssociates(Push(items[0]), PushAll(items[1..]), Push(data));
    }
  }

  // ----- reading pushes

  /** The announced length and the size of the header, if the first byte opens a push. */
  function ReadHeader(b: seq<byte>): Option<(nat, nat)> {
    if b == [] then None
    else if b[0] <= 75 then Some((b[0], 1))
    else if b[0] == 0x4c && |b| >= 2 then Some((b[1], 2))
    else if b[0] == 0x4d && |b| >= 3 then Some((FromLittleEndian(b[1], b[2], 0, 0), 3))
    else if b[0] == 0x4e && |b| >= 5 then Some((FromLittleEndian(b[1], b[2], b[3], b[4]), 5))
    else None
  }

  /** One pushed item, and where it ends. */
  function ReadPush(b: seq<byte>): Option<(seq<byte>, nat)> {
    match ReadHeader(b)
    case None => None
    case Some((n, h)) => if h + n <= |b| then Some((b[h..h + n], h + n)) else None
  }

  function ReadAll(b: seq<byte>): Option<seq<seq<byte>>> {
    if b == [] then Some([])
    else
      match ReadPush(b)
      case None => None
      case Some((item, end)) =>
        if end == 0 then None
        else
          match ReadAll(b[end..])
          case None => None
          case Some(rest) => Some([item] + rest)
  }

  lemma WideHeader(n: nat)
    requires 0xffff < n < U32_LIMIT
    ensures Header(n) == [0x4e] + ToLittleEndian(n)
  {
    assert n % U32_LIMIT == n;
  }

  lemma WideHeaderReadsBack(n: nat, rest: seq<byte>)
    requires 0xffff < n < U32_LIMIT
    ensures ReadHeader(Header(n) + rest) == Some((n, |Header(n)|))
  {
    WideHeader(n);
    var le := ToLittleEndian(n);
    var b := [0x4e] + le + rest;
    assert b[0] == 0x4e && b[1] == le[0] && b[2] == le[1] && b[3] == le[2] && b[4] == le[3];
    LittleEndianRoundTrip(n);
  }

  lemma HeaderReadsBack(n: nat, rest: seq<byte>)
    requires n < U32_LIMIT
    ensures ReadHeader(Header(n) + rest) == Some((n, |Header(n)|))
  {
    if 0xffff < n {
      WideHeaderReadsBack(n, rest);
    } else {
      var b := Header(n) + rest;
      if 75 < n <= 0xff {
        assert b[0] == 0x4c && b[1] == n;
      } else if 0xff < n {
        assert b[0] == 0x4d && b[1] == n % 256 && b[2] == n / 256;
      }
    }
  }

  lemma PushReadsBack(data: seq<byte>, rest: seq<byte>)
    requires |data| < U32_LIMIT
    ensures ReadPush(Push(data) + rest) == Some((data, |Push(data)|))
  {
    var h := Header(|data|);
    HeaderReadsBack(|data|, data + rest);
    assert Push(data) + rest == h + (data + rest);
    assert (h + (data + rest))[|h|..|h| + |data|] == data;
  }

  /** After a push the reader goes on with what follows it. */
  lemma ReadAllStep(data: seq<byte>, rest: seq<byte>)
    requires |data| < U32_LIMIT
    ensures ReadAll(Push(data) + rest) ==
            match ReadAll(rest)
            case None => None
            case Some(items) => Some([data] + items)
  {
    var b := Push(data) + rest;
    PushReadsBack(data, rest);
    assert |Push(data)| > 0 && b != [];
    assert b[|Push(data)|..] == rest;
  }

  /** A reader recovers exactly the pushed items. */
  lemma {:induction false} PushesReadBack(items: seq<seq<byte>>)
    requires forall i :: 0 <= i < |items| ==> |items[i]| < U32_LIMIT
    ensures ReadAll(PushAll(items)) == Some(items)
  {
    if items != [] {
      PushesReadBack(items[1..]);
      ReadAllStep(items[0], PushAll(items[1..]));
      assert items == [items[0]] + items[1..];
    }
  }

  /** A single push reads back exactly when its length fits in 32 bits. */
  lemma PushReadsBackExactly(data: seq<byte>)
    ensures ReadAll(Push(data)) == Some([data]) <==> |data| < U32_LIMIT
  {
    if |data| < U32_LIMIT {
      PushesReadBack([data]);
      PushAllSnoc([], data);
      assert [] + [data] == [data];
      assert [] + Push(data) == Push(data);
    } else if ReadAll(Push(data)) == Some([data]) {
      var b := Push(data);
      var first := ReadPush(b).value.0;
      assert ([first] + ReadAll(b[ReadPush(b).value.1..]).value)[0] == first;
      ReadIsShort(b);
      assert false;
    }
  }

  lemma ReadIsShort(b: seq<byte>)
    requires ReadPush(b).Some?
    ensures |ReadPush(b).value.0| < U32_LIMIT
  {
  }

  /** No encoding that the reader accepts for the same data is shorter. */
  lemma PushIsShortest(b: seq<byte>)
    requires ReadPush(b).Some?
    ensures |Push(ReadPush(b).value.0)| <= ReadPush(b).value.1
  {
  }

  /** What a reader of the script finds: the marker 0x51 for a refund, 0x00 for a redemption. */
  lemma ScriptSigReadsBack(sig: seq<byte>, secret: seq<byte>, redeem: seq<byte>)
    requires |sig| < U32_LIMIT && |secret| < U32_LIMIT && |redeem| < U32_LIMIT
    ensures ReadAll(PushAll(ScriptItems(sig, secret, redeem))) ==
            Some(if secret == [] then [sig, [0x51], redeem] else [sig, secret, [0x00], redeem])
  {
    PushesReadBack(ScriptItems(sig, secret, redeem));
  }

  /** Different unlocking data give different scripts; a refund never looks like a redemption. */
  lemma ScriptSigInjective(
      sig: seq<byte>, secret: seq<byte>, redeem: seq<byte>,
      sig': seq<byte>, secret': seq<byte>, redeem': seq<byte>)
    requires |sig| < U32_LIMIT && |secret| < U32_LIMIT && |redeem| < U32_LIMIT
    requires |sig'| < U32_LIMIT && |secret'| < U32_LIMIT && |redeem'| < U32_LIMIT
    requires PushAll(ScriptItems(sig, secret, redeem)) == PushAll(ScriptItems(sig', secret', redeem'))
    ensures sig == sig' && secret == secret' && redeem == redeem'
  {
    var a, b := ScriptItems(sig, secret, redeem), ScriptItems(sig', secret', redeem');
    PushesReadBack(a);
    PushesReadBack(b);
    assert a == b;
    assert a[0] == sig && b[0] == sig' && a[|a| - 1] == redeem && b[|b| - 1] == redeem';
    assert |a| == 4 ==> a[1] == secret && b[1] == secret';
  }
}
