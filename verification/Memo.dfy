/** The 512-byte memo field: text and raw payloads, padding, truncation and display. */
module Memo {
  import opened Base
  import Utf8

  const MAX_MEMO_LENGTH: nat := 512

  datatype Memo = Empty | Text(text: string) | Arbitrary(bytes: seq<byte>)

  /** The byte length of a text, as the wallet measures it. */
  function ByteLen(text: string): nat {
    |Utf8.Encode(text)|
  }

  /** The control characters of Unicode: U+0000..U+001F and U+007F..U+009F. */
  predicate IsControl(c: char) {
    c as int < 0x20 || 0x7F <= c as int < 0xA0
  }

  predicate IsAllowed(c: char) {
    c == '\n' || c == '\t' || c == '\r' || !IsControl(c)
  }

  predicate IsValidText(text: string) {
    forall c :: c in text ==> IsAllowed(c)
  }

  function FromText(text: string): Result<Memo, Error> {
    if text == [] then Ok(Empty)
    else if !IsValidText(text) then Err(InvalidMemo)
    else if ByteLen(text) > MAX_MEMO_LENGTH then Err(MemoTooLong)
    else Ok(Text(text))
  }

  function Content(m: Memo): seq<byte> {
    match m
    case Empty => []
    case Text(text) => Utf8.Encode(text)
    case Arbitrary(bytes) => bytes
  }

  /** Cuts or zero-fills to the memo length. */
  function Resize(bytes: seq<byte>): (r: seq<byte>)
    ensures |r| == MAX_MEMO_LENGTH
  {
    if |bytes| >= MAX_MEMO_LENGTH then bytes[..MAX_MEMO_LENGTH]
    else bytes + seq(MAX_MEMO_LENGTH - |bytes|, _ => 0)
  }

  function Encode(m: Memo): seq<byte> {
    Resize(Content(m))
  }

  /** Drops trailing zero bytes. */
  function TrimPadding(bytes: seq<byte>): seq<byte> {
    if bytes != [] && bytes[|bytes| - 1] == 0 then TrimPadding(bytes[..|bytes| - 1]) else bytes
  }

  function Decode(bytes: seq<byte>): Result<Memo, Error> {
    if |bytes| != MAX_MEMO_LENGTH then Err(InvalidMemo)
    else
      var data := TrimPadding(bytes);
      if data == [] then Ok(Empty)
      else
        match Utf8.Decode(data)
        case Some(text) => if IsValidText(text) then Ok(Text(text)) else Ok(Arbitrary(data))
        case None => Ok(Arbitrary(data))
  }

  function DecodeDisplayText(bytes: seq<byte>): Option<string> {
    var data := TrimPadding(if |bytes| > MAX_MEMO_LENGTH then bytes[..MAX_MEMO_LENGTH] else bytes);
    if data == [] then None
    else
      match Utf8.Decode(data)
      case Some(text) => if IsValidText(text) then Some(text) else None
      case None => None
  }

  function Validate(m: Memo): Result<(), Error> {
    if |Content(m)| > MAX_MEMO_LENGTH then Err(MemoTooLong) else Ok(())
  }

  /** What a transaction output carries: the protocol's own "no memo", or a padded payload. */
  datatype MemoBytes = NoMemo | Padded(bytes: seq<byte>)

  /** The external memo type refuses more than 512 bytes. */
  function ToMemoBytes(m: Memo): Result<MemoBytes, Error> {
    if m.Empty? then Ok(NoMemo)
    else if |Content(m)| > MAX_MEMO_LENGTH then Err(InvalidMemo)
    else Ok(Padded(Encode(m)))
  }

  /** Which texts are entered as they stand, with the control characters written out. */
  lemma TextEntryExactly(text: string)
    ensures FromText(text) ==
            if text == [] then Ok(Empty)
            else if exists c :: c in text && c !in "\t\n\r" && (c as int <= 0x1F || 0x7F <= c as int <= 0x9F)
            then Err(InvalidMemo)
            else if |Utf8.Encode(text)| > 512 then Err(MemoTooLong)
            else Ok(Text(text))
  {
  }

  /** A padded payload, which decodes to the memo itself exactly when that is possible. */
  ghost predicate HoldsPadded(field: MemoBytes, payload: seq<byte>, m: Memo) {
    && field.Padded?
    && |field.bytes| == 512
    && payload <= field.bytes
    && (forall i :: |payload| <= i < 512 ==> field.bytes[i] == 0)
    && (Decode(field.bytes) == Ok(m) <==> IsCanonical(m))
  }

  /** What a recipient finds: the protocol's "no memo" for none or an empty one, otherwise the padded payload. */
  ghost predicate Carries(field: MemoBytes, memo: Option<Memo>) {
    match memo
    case None => field == NoMemo
    case Some(Empty) => field == NoMemo
    case Some(Text(text)) => HoldsPadded(field, Utf8.Encode(text), Text(text))
    case Some(Arbitrary(bytes)) => HoldsPadded(field, bytes, Arbitrary(bytes))
  }

  lemma FieldCarries(memo: Option<Memo>)
    requires memo.Some? ==> ToMemoBytes(memo.value).Ok?
    ensures Carries(if memo.Some? then ToMemoBytes(memo.value).value else NoMemo, memo)
  {
    if memo.Some? && !memo.value.Empty? {
      DecodeEncode(memo.value);
    }
  }

  // ----- padding

  /** `bytes` is `data` followed by zeros, and `data` does not end in zero. */
  ghost predicate IsTrimmed(data: seq<byte>, bytes: seq<byte>) {
    && data <= bytes
    && (data == [] || data[|data| - 1] != 0)
    && forall i :: |data| <= i < |bytes| ==> bytes[i] == 0
  }

  lemma {:induction false} TrimPaddingCorrect(bytes: seq<byte>)
    ensures IsTrimmed(TrimPadding(bytes), bytes)
  {
    if bytes != [] && bytes[|bytes| - 1] == 0 {
      TrimPaddingCorrect(bytes[..|bytes| - 1]);
    }
  }

  lemma TrimmedIsUnique(a: seq<byte>, b: seq<byte>, bytes: seq<byte>)
    requires IsTrimmed(a, bytes) && IsTrimmed(b, bytes)
    ensures a == b
  {
    assert a == bytes[..|a|] && b == bytes[..|b|];
  }

  lemma TrimOfResize(data: seq<byte>)
    requires |data| <= MAX_MEMO_LENGTH
    requires data == [] || data[|data| - 1] != 0
    ensures TrimPadding(Resize(data)) == data
  {
    TrimPaddingCorrect(Resize(data));
    TrimmedIsUnique(TrimPadding(Resize(data)), data, Resize(data));
  }

  lemma ResizeOfTrim(bytes: seq<byte>)
    requires |bytes| == MAX_MEMO_LENGTH
    ensures Resize(TrimPadding(bytes)) == bytes
  {
    TrimPaddingCorrect(bytes);
  }

  lemma StillTrimmed(data: seq<byte>, bytes: seq<byte>, field: seq<byte>)
    requires IsTrimmed(data, bytes)
    requires bytes <= field && forall i :: |bytes| <= i < |field| ==> field[i] == 0
    ensures IsTrimmed(data, field)
  {
    forall i | |data| <= i < |field| ensures field[i] == 0 {
      assert i < |bytes| ==> field[i] == bytes[i];
    }
  }

  lemma TrimIgnoresPadding(bytes: seq<byte>)
    requires |bytes| <= MAX_MEMO_LENGTH
    ensures TrimPadding(Resize(bytes)) == TrimPadding(bytes)
  {
    TrimPaddingCorrect(bytes);
    TrimPaddingCorrect(Resize(bytes));
    StillTrimmed(TrimPadding(bytes), bytes, Resize(bytes));
    TrimmedIsUnique(TrimPadding(Resize(bytes)), TrimPadding(bytes), Resize(bytes));
  }

  // ----- round trips

  /** Decoding loses nothing: every 512-byte field is rebuilt from what it decodes to. */
  lemma EncodeDecode(bytes: seq<byte>)
    requires |bytes| == MAX_MEMO_LENGTH
    ensures Decode(bytes).Ok?
    ensures Encode(Decode(bytes).value) == bytes
  {
    var data := TrimPadding(bytes);
    ResizeOfTrim(bytes);
    if data != [] && Utf8.Decode(data).Some? {
      Utf8.EncodeDecode(data);
    }
  }

  /** The memos that are their own decoding. */
  ghost predicate IsCanonical(m: Memo) {
    match m
    case Empty => true
    case Text(text) => text != [] && IsValidText(text) && ByteLen(text) <= MAX_MEMO_LENGTH
    case Arbitrary(bytes) =>
      && 0 < |bytes| <= MAX_MEMO_LENGTH
      && bytes[|bytes| - 1] != 0
      && (Utf8.Decode(bytes).Some? ==> !IsValidText(Utf8.Decode(bytes).value))
  }

  /** A valid text never ends in a zero byte, so padding cannot be confused with it. */
  lemma {:induction false} ValidTextEnd(text: string)
    requires text != [] && IsValidText(text)
    ensures Utf8.Encode(text) != []
    ensures Utf8.Encode(text)[|Utf8.Encode(text)| - 1] != 0
  {
    assert text[0] in text;
    if |text| > 1 {
      ValidTextEnd(text[1..]);
    } else {
      assert Utf8.Encode(text) == Utf8.EncodeChar(text[0]) + [];
    }
  }

  /** A memo survives the trip through the field exactly when it is canonical. */
  lemma DecodeEncode(m: Memo)
    ensures Decode(Encode(m)) == Ok(m) <==> IsCanonical(m)
  {
    if IsCanonical(m) {
      if m.Text? {
        ValidTextEnd(m.text);
        Utf8.DecodeEncode(m.text);
      }
      TrimOfResize(Content(m));
    } else if Decode(Encode(m)) == Ok(m) {
      DecodedIsCanonical(Encode(m));
      assert false;
    }
  }

  lemma DecodedIsCanonical(bytes: seq<byte>)
    requires |bytes| == MAX_MEMO_LENGTH
    ensures IsCanonical(Decode(bytes).value)
  {
    TrimPaddingCorrect(bytes);
    var data := TrimPadding(bytes);
    if data != [] && Utf8.Decode(data).Some? {
      Utf8.EncodeDecode(data);
    }
  }

  /** In particular every memo that text entry accepts. */
  lemma AcceptedTextRoundTrips(text: string)
    requires FromText(text).Ok?
    ensures Decode(Encode(FromText(text).value)) == FromText(text)
  {
    DecodeEncode(FromText(text).value);
  }

  /** Display agrees with decoding, for a field of any length once it is cut or padded to 512. */
  lemma DisplayMatchesDecode(bytes: seq<byte>)
    ensures DecodeDisplayText(bytes) ==
            match Decode(Resize(bytes))
            case Ok(Text(text)) => Some(text)
            case _ => None
  {
    if |bytes| <= MAX_MEMO_LENGTH {
      TrimIgnoresPadding(bytes);
    }
  }

  // ----- truncation

  /** `r` is the longest whole-character prefix of `s` whose encoding fits. */
  ghost predicate IsLongestFit(r: string, s: string, maxBytes: nat) {
    && r <= s
    && ByteLen(r) <= maxBytes
    && forall p: string :: p <= s && ByteLen(p) <= maxBytes ==> p <= r
  }

  lemma PrefixFits(p: string, s: string)
    requires p <= s
    ensures ByteLen(p) <= ByteLen(s)
  {
    assert s == p + s[|p|..];
    Utf8.EncodeConcat(p, s[|p|..]);
  }

  lemma NextDoesNotFit(s: string, i: nat, maxBytes: nat)
    requires i < |s|
    requires ByteLen(s[..i]) <= maxBytes < ByteLen(s[..i + 1])
    ensures IsLongestFit(s[..i], s, maxBytes)
  {
    forall p: string | p <= s && ByteLen(p) <= maxBytes ensures p <= s[..i] {
      if |p| > i {
        PrefixFits(s[..i + 1], p);
        assert false;
      }
      assert p == s[..|p|];
    }
  }

  method TruncateToBytes(s: string, maxBytes: nat) returns (r: string)
    ensures IsLongestFit(r, s, maxBytes)
  {
    if ByteLen(s) <= maxBytes {
      return s;
    }
    assert s[..|s|] == s;
    r := [];
    var i := 0;
    while i < |s|
      invariant 0 <= i <= |s|
      invariant r == s[..i]
      invariant ByteLen(r) <= maxBytes
    {
      Utf8.EncodeSnoc(r, s[i]);
      assert s[..i + 1] == r + [s[i]];
      if ByteLen(r) + |Utf8.EncodeChar(s[i])| > maxBytes {
        NextDoesNotFit(s, i, maxBytes);
        return;
      }
      r := r + [s[i]];
      i := i + 1;
    }
  }

  function FilterAllowed(s: string): string {
    if s == [] then []
    else if IsAllowed(s[0]) then [s[0]] + FilterAllowed(s[1..])
    else FilterAllowed(s[1..])
  }

  /** Filtering works character by character and keeps the order. */
  lemma {:induction false} FilterAllowedConcat(s: string, t: string)
    ensures FilterAllowed(s + t) == FilterAllowed(s) + FilterAllowed(t)
  {
    if s == [] {
      assert s + t == t;
    } else {
      FilterAllowedConcat(s[1..], t);
      assert (s + t)[0] == s[0] && (s + t)[1..] == s[1..] + t;
      ConcatAssociates([s[0]], FilterAllowed(s[1..]), FilterAllowed(t));
    }
  }

  lemma FilterAllowedOne(c: char)
    ensures FilterAllowed([c]) == if IsAllowed(c) then [c] else []
  {
    assert [c][1..] == [];
  }

  lemma {:induction false} FilterAllowedCorrect(s: string)
    ensures IsValidText(FilterAllowed(s))
    ensures ByteLen(FilterAllowed(s)) <= ByteLen(s)
    ensures IsValidText(s) ==> FilterAllowed(s) == s
  {
    if s != [] {
      FilterAllowedCorrect(s[1..]);
      if IsAllowed(s[0]) {
        assert FilterAllowed(s)[1..] == FilterAllowed(s[1..]);
      }
      assert s[0] in s && forall c :: c in s[1..] ==> c in s;
    }
  }

  /**
   The result always passes the checks of text entry, and is the entry's own result
   whenever the text is acceptable as it stands.
   */
  method FromTextTruncated(text: string) returns (m: Memo)
    ensures FromText(Utf8Text(m)) == Ok(m)
    ensures FromText(text).Ok? ==> m == FromText(text).value
    ensures forall fit :: IsLongestFit(fit, text, MAX_MEMO_LENGTH) ==> Utf8Text(m) == FilterAllowed(fit)
  {
    if text == [] {
      return Empty;
    }
    var truncated := TruncateToBytes(text, MAX_MEMO_LENGTH);
    var filtered := FilterAllowed(truncated);
    FilterAllowedCorrect(truncated);
    forall fit | IsLongestFit(fit, text, MAX_MEMO_LENGTH) ensures fit == truncated {
      assert fit <= truncated && truncated <= fit;
    }
    m := if filtered == [] then Empty else Text(filtered);
  }

  function Utf8Text(m: Memo): string {
    if m.Text? then m.text else []
  }
}
