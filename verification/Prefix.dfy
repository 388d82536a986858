/**
 * Binary prefixes (src/prefix/prefix.cpp): masking at bit level, and the CIDR text codec.
 * An IPv4 network is one 32-bit word, an IPv6 network sixteen bytes, a length one byte.
 */
module Prefix {
  import opened Base
  import opened Text

  datatype PrefixV4 = PrefixV4(network: bv32, length: bv8)

  type Bytes16 = bytes: seq<bv8> | |bytes| == 16 witness [0, 0, 0, 0, 0, 0, 0, 0, 0, 0, 0, 0, 0, 0, 0, 0]

  datatype PrefixV6 = PrefixV6(network: Bytes16, length: bv8)

  datatype BinaryPrefix = V4(v4: PrefixV4) | V6(v6: PrefixV6)

  datatype Family = FamilyV4 | FamilyV6

  datatype PrefixError = MissingLength | BadLength | LengthOutOfRange | BadAddress | UnknownFamily

  function FamilyOf(p: BinaryPrefix): Family {
    if p.V4? then FamilyV4 else FamilyV6
  }

  // ----- Masking -----

  function ApplyMaskV4(network: bv32, length: bv8): bv32
    requires length <= 32
  {
    if length == 0 then 0 else network & (0xFFFF_FFFF << (32 - length))
  }

  /** What one byte becomes when its first `bitsLeft` bits are kept. */
  function MaskByte(b: bv8, bitsLeft: bv8): bv8 {
    if bitsLeft >= 8 then b else if bitsLeft == 0 then 0 else b & (0xFF << (8 - bitsLeft))
  }

  function Minus8(length: bv8): bv8 {
    if length >= 8 then length - 8 else 0
  }

  function MaskBytes(network: seq<bv8>, length: bv8): (r: seq<bv8>)
    ensures |r| == |network|
  {
    if network == [] then []
    else [MaskByte(network[0], length)] + MaskBytes(network[1..], Minus8(length))
  }

  /**
   * The loop has masked the bytes before `index` and has `bitsLeft` bits to keep in the others;
   * closed, see Base.Key.
   */
  ghost predicate MaskedTo(network: seq<bv8>, length: bv8, result: seq<bv8>, index: nat, bitsLeft: bv8) {
    forall k {:trigger Key(MaskDoor, k)} :: Key(MaskDoor, k) ==>
      MaskedExactly(network, length, result, index, bitsLeft)
  }

  ghost predicate MaskedExactly(network: seq<bv8>, length: bv8, result: seq<bv8>, index: nat, bitsLeft: bv8) {
    && index <= |network| == |result|
    && result[index..] == network[index..]
    && MaskBytes(network, length) == result[..index] + MaskBytes(network[index..], bitsLeft)
  }

  lemma MaskOneByte(network: seq<bv8>, length: bv8, result: seq<bv8>, index: nat, bitsLeft: bv8, b: bv8)
    requires MaskedTo(network, length, result, index, bitsLeft) && index < |network| == |result|
    requires b == MaskByte(result[index], bitsLeft)
    ensures MaskedTo(network, length, result[index := b], index + 1, Minus8(bitsLeft))
  {
    assert Key(MaskDoor, 0);
    var result' := result[index := b];
    assert result[index] == result[index..][0] == network[index];
    assert network[index..][0] == network[index] && network[index..][1..] == network[index + 1..];
    assert result'[..index + 1] == result[..index] + [MaskByte(network[index], bitsLeft)];
    assert result'[index + 1..] == result[index..][1..];
  }

  /** The byte loop of apply_mask_v6 computes MaskBytes. */
  method ApplyMaskV6(network: Bytes16, length: bv8) returns (result: Bytes16)
    ensures result == MaskBytes(network, length)
  {
    result := network;
    var bitsLeft := length;
    MaskStarts(network, length);
    for index := 0 to |network|
      invariant MaskedTo(network, length, result, index, bitsLeft)
    {
      if bitsLeft >= 8 {
        MaskOneByte(network, length, result, index, bitsLeft, result[index]);
        assert result[index := result[index]] == result;
        bitsLeft := bitsLeft - 8;
        continue;
      }
      if bitsLeft == 0 {
        MaskOneByte(network, length, result, index, bitsLeft, 0);
        result := result[index := 0];
        continue;
      }
      var mask: bv8 := 0xFF << (8 - bitsLeft);
      MaskOneByte(network, length, result, index, bitsLeft, result[index] & mask);
      result := result[index := result[index] & mask];
      bitsLeft := 0;
    }
    MaskDone(network, length, result, bitsLeft);
  }

  lemma MaskStarts(network: seq<bv8>, length: bv8)
    ensures MaskedTo(network, length, network, 0, length)
  {
    assert network[0..] == network && network[..0] == [];
  }

  lemma MaskDone(network: seq<bv8>, length: bv8, result: seq<bv8>, bitsLeft: bv8)
    requires MaskedTo(network, length, result, |network|, bitsLeft)
    ensures result == MaskBytes(network, length)
  {
    assert Key(MaskDoor, 0);
    assert result[..|network|] == result && network[|network|..] == [];
  }

  /** Bit k of a byte, counted from its most significant end. */
  predicate ByteBit(b: bv8, k: nat)
    requires k < 8
  {
    if k == 0 then b & 0x80 != 0
    else if k == 1 then b & 0x40 != 0
    else if k == 2 then b & 0x20 != 0
    else if k == 3 then b & 0x10 != 0
    else if k == 4 then b & 0x08 != 0
    else if k == 5 then b & 0x04 != 0
    else if k == 6 then b & 0x02 != 0
    else b & 0x01 != 0
  }

  /** Bit i of an address in network order. */
  predicate Bit(network: seq<bv8>, i: nat)
    requires i < 8 * |network|
  {
    ByteBit(network[i / 8], i % 8)
  }

  function Octet0(n: bv32): bv8 { (n >> 24) as bv8 }

  function Octet1(n: bv32): bv8 { ((n >> 16) & 0xFF) as bv8 }

  function Octet2(n: bv32): bv8 { ((n >> 8) & 0xFF) as bv8 }

  function Octet3(n: bv32): bv8 { (n & 0xFF) as bv8 }

  /** The four bytes of an IPv4 network, in network order. */
  function BytesV4(n: bv32): (bytes: seq<bv8>)
    ensures |bytes| == 4
  {
    [Octet0(n), Octet1(n), Octet2(n), Octet3(n)]
  }

  function PackV4(a: bv8, b: bv8, c: bv8, d: bv8): bv32 {
    ((a as bv32) << 24) | ((b as bv32) << 16) | ((c as bv32) << 8) | (d as bv32)
  }

  function WordV4(bytes: seq<bv8>): bv32
    requires |bytes| == 4
  {
    PackV4(bytes[0], bytes[1], bytes[2], bytes[3])
  }

  lemma WordOfBytes(n: bv32)
    ensures PackV4(Octet0(n), Octet1(n), Octet2(n), Octet3(n)) == n
    ensures WordV4(BytesV4(n)) == n
  {}

  lemma MaskFourBytes(bytes: seq<bv8>, length: bv8)
    requires |bytes| == 4
    ensures MaskBytes(bytes, length)
         == [MaskByte(bytes[0], length), MaskByte(bytes[1], Minus8(length)),
             MaskByte(bytes[2], Minus8(Minus8(length))), MaskByte(bytes[3], Minus8(Minus8(Minus8(length))))]
  {
    var b1, b2, b3 := bytes[1..], bytes[2..], bytes[3..];
    assert b1[1..] == b2 && b2[1..] == b3 && b3[1..] == [];
    var l3 := Minus8(Minus8(Minus8(length)));
    assert MaskBytes(b3, l3) == [MaskByte(bytes[3], l3)];
    assert MaskBytes(b2, Minus8(Minus8(length))) == [MaskByte(bytes[2], Minus8(Minus8(length)))] + MaskBytes(b3, l3);
  }

  lemma MaskV4Octets(n: bv32, length: bv8)
    requires length <= 32
    ensures Octet0(ApplyMaskV4(n, length)) == MaskByte(Octet0(n), length)
    ensures Octet1(ApplyMaskV4(n, length)) == MaskByte(Octet1(n), Minus8(length))
    ensures Octet2(ApplyMaskV4(n, length)) == MaskByte(Octet2(n), Minus8(Minus8(length)))
    ensures Octet3(ApplyMaskV4(n, length)) == MaskByte(Octet3(n), Minus8(Minus8(Minus8(length))))
  {}

  /** The IPv4 shift is the IPv6 byte loop on four bytes. */
  lemma MaskV4IsByteLoop(n: bv32, length: bv8)
    requires length <= 32
    ensures BytesV4(ApplyMaskV4(n, length)) == MaskBytes(BytesV4(n), length)
  {
    MaskFourBytes(BytesV4(n), length);
    MaskV4Octets(n, length);
  }

  lemma MaskByteBits(b: bv8, bitsLeft: bv8, k: nat)
    requires k < 8
    ensures ByteBit(MaskByte(b, bitsLeft), k) == (k < bitsLeft as int && ByteBit(b, k))
  {
    if bitsLeft < 8 {
      assert bitsLeft in {0, 1, 2, 3, 4, 5, 6, 7};
    }
  }

  /** Masking keeps exactly the first `length` bits and clears the others. */
  lemma {:induction false} MaskBits(network: seq<bv8>, length: bv8, i: nat)
    requires i < 8 * |network|
    ensures Bit(MaskBytes(network, length), i) == (i < length as int && Bit(network, i))
  {
    if i < 8 {
      MaskByteBits(network[0], length, i);
    } else {
      MaskBits(network[1..], Minus8(length), i - 8);
      BitInRest(network, i);
      BitInRest(MaskBytes(network, length), i);
      assert MaskBytes(network, length)[1..] == MaskBytes(network[1..], Minus8(length));
      EightFewer(length, i);
    }
  }

  lemma BitInRest(network: seq<bv8>, i: nat)
    requires 8 <= i < 8 * |network|
    ensures Bit(network, i) == Bit(network[1..], i - 8)
  {
    assert (i - 8) / 8 == i / 8 - 1 && (i - 8) % 8 == i % 8;
  }

  lemma EightFewer(length: bv8, i: nat)
    requires i >= 8
    ensures i < length as int <==> i - 8 < Minus8(length) as int
  {}

  lemma ByteBitsDetermine(a: bv8, b: bv8)
    requires forall k: nat | k < 8 :: ByteBit(a, k) == ByteBit(b, k)
    ensures a == b
  {
    assert ByteBit(a, 0) == ByteBit(b, 0) && ByteBit(a, 1) == ByteBit(b, 1)
        && ByteBit(a, 2) == ByteBit(b, 2) && ByteBit(a, 3) == ByteBit(b, 3)
        && ByteBit(a, 4) == ByteBit(b, 4) && ByteBit(a, 5) == ByteBit(b, 5)
        && ByteBit(a, 6) == ByteBit(b, 6) && ByteBit(a, 7) == ByteBit(b, 7);
  }

  lemma BitsDetermine(x: seq<bv8>, y: seq<bv8>)
    requires |x| == |y|
    requires forall i: nat | i < 8 * |x| :: Bit(x, i) == Bit(y, i)
    ensures x == y
  {
    forall j: nat | j < |x| ensures x[j] == y[j] {
      forall k: nat | k < 8 ensures ByteBit(x[j], k) == ByteBit(y[j], k) {
        assert (8 * j + k) / 8 == j && (8 * j + k) % 8 == k;
        assert Bit(x, 8 * j + k) == Bit(y, 8 * j + k);
      }
      ByteBitsDetermine(x[j], y[j]);
    }
  }

  function MinLength(a: bv8, b: bv8): bv8 {
    if a < b then a else b
  }

  lemma MaskComposeBit(x: seq<bv8>, a: bv8, b: bv8, i: nat)
    requires i < 8 * |x|
    ensures Bit(MaskBytes(MaskBytes(x, a), b), i) == Bit(MaskBytes(x, MinLength(a, b)), i)
  {
    var xa := MaskBytes(x, a);
    MaskBits(x, a, i);
    MaskBits(xa, b, i);
    MaskBits(x, MinLength(a, b), i);
    BelowBoth(a, b, i);
  }

  lemma BelowBoth(a: bv8, b: bv8, i: nat)
    ensures i < MinLength(a, b) as int <==> i < a as int && i < b as int
  {}

  /** Masking twice is masking once with the shorter length. */
  lemma {:induction false} MaskCompose(x: seq<bv8>, a: bv8, b: bv8)
    ensures MaskBytes(MaskBytes(x, a), b) == MaskBytes(x, MinLength(a, b))
  {
    var twice, once := MaskBytes(MaskBytes(x, a), b), MaskBytes(x, MinLength(a, b));
    forall i: nat | i < 8 * |x| ensures Bit(twice, i) == Bit(once, i) {
      MaskComposeBit(x, a, b, i);
    }
    BitsDetermine(twice, once);
  }

  ghost predicate AgreeOnFirst(x: seq<bv8>, y: seq<bv8>, length: nat)
    requires |x| == |y|
  {
    forall i: nat | i < 8 * |x| && i < length :: Bit(x, i) == Bit(y, i)
  }

  /** Two addresses normalise to the same network exactly when their first `length` bits agree. */
  lemma SameNetworkIffPrefixAgrees(x: seq<bv8>, y: seq<bv8>, length: bv8)
    requires |x| == |y|
    ensures MaskBytes(x, length) == MaskBytes(y, length) <==> AgreeOnFirst(x, y, length as int)
  {
    var mx, my := MaskBytes(x, length), MaskBytes(y, length);
    forall i: nat | i < 8 * |x|
      ensures Bit(mx, i) == (i < length as int && Bit(x, i))
      ensures Bit(my, i) == (i < length as int && Bit(y, i))
    {
      MaskBits(x, length, i);
      MaskBits(y, length, i);
    }
    if AgreeOnFirst(x, y, length as int) {
      BitsDetermine(mx, my);
    }
  }

  lemma SameNetworkV4(x: bv32, y: bv32, length: bv8)
    requires length <= 32
    ensures ApplyMaskV4(x, length) == ApplyMaskV4(y, length)
       <==> AgreeOnFirst(BytesV4(x), BytesV4(y), length as int)
  {
    MaskV4IsByteLoop(x, length);
    MaskV4IsByteLoop(y, length);
    SameNetworkIffPrefixAgrees(BytesV4(x), BytesV4(y), length);
    WordOfBytes(ApplyMaskV4(x, length));
    WordOfBytes(ApplyMaskV4(y, length));
  }

  lemma MaskComposeV4(n: bv32, a: bv8, b: bv8)
    requires a <= 32 && b <= 32
    ensures ApplyMaskV4(ApplyMaskV4(n, a), b) == ApplyMaskV4(n, MinLength(a, b))
  {
    MaskV4IsByteLoop(n, a);
    MaskV4IsByteLoop(ApplyMaskV4(n, a), b);
    MaskV4IsByteLoop(n, MinLength(a, b));
    MaskCompose(BytesV4(n), a, b);
    WordOfBytes(ApplyMaskV4(ApplyMaskV4(n, a), b));
    WordOfBytes(ApplyMaskV4(n, MinLength(a, b)));
  }

  // ----- CIDR text -----

  /** One field of a dotted quad: at most three digits, no leading zero, at most 255. */
  predicate IsOctetText(s: string) {
    1 <= |s| <= 3 && AllDigits(s) && (s[0] == '0' ==> |s| == 1) && DigitsValue(s) <= 255
  }

  function Octet(s: string): bv8
    requires IsOctetText(s)
  {
    DigitsValue(s) as bv8
  }

  /** inet_pton for AF_INET. */
  function InetPtonV4(s: string): Option<bv32> {
    var parts := Split(s, '.');
    if |parts| == 4
      && IsOctetText(parts[0]) && IsOctetText(parts[1]) && IsOctetText(parts[2]) && IsOctetText(parts[3]) then
      Some(PackV4(Octet(parts[0]), Octet(parts[1]), Octet(parts[2]), Octet(parts[3])))
    else None
  }

  /** inet_ntop for AF_INET. */
  function InetNtopV4(n: bv32): string {
    Quad(Decimal(Octet0(n) as int), Decimal(Octet1(n) as int), Decimal(Octet2(n) as int), Decimal(Octet3(n) as int))
  }

  /** inet_ntop and inet_pton for AF_INET6: foreign functions, known only by what Lawful says. */
  datatype Inet6Functions = Inet6Functions(ntop: Bytes16 -> string, pton: string -> Option<Bytes16>)

  ghost predicate PrintsReadably(f: Inet6Functions, bytes: Bytes16) {
    var text := f.ntop(bytes);
    && f.pton(text) == Some(bytes)
    && ':' in text && '/' !in text && '\t' !in text && '\n' !in text && '\0' !in text
  }

  ghost predicate Lawful(f: Inet6Functions) {
    forall bytes: Bytes16 :: PrintsReadably(f, bytes)
  }

  /** A toy pair showing that the assumption on the foreign pair can be met. */
  function ToyNtop(bytes: Bytes16): string {
    ":" + seq(16, i requires 0 <= i < 16 => (256 + bytes[i] as int) as char)
  }

  function ToyPton(text: string): Option<Bytes16> {
    if |text| == 17 && text[0] == ':' && (forall i | 1 <= i < 17 :: 256 <= text[i] as int < 512)
    then Some(seq(16, i requires 0 <= i < 16 => (text[i + 1] as int - 256) as bv8))
    else None
  }

  lemma ToyIsLawful()
    ensures Lawful(Inet6Functions(ToyNtop, ToyPton))
  {
    forall bytes: Bytes16 ensures PrintsReadably(Inet6Functions(ToyNtop, ToyPton), bytes) {
      var text := ToyNtop(bytes);
      assert text[0] == ':';
      assert forall i | 1 <= i < 17 :: text[i] as int == 256 + bytes[i - 1] as int;
      assert ToyPton(text).value == bytes;
    }
  }

  type Inet6 = f: Inet6Functions | Lawful(f)
    ghost witness (ToyIsLawful(); Inet6Functions(ToyNtop, ToyPton))

  function CStr(s: string): string {
    s[..Find(s, '\0')]
  }

  function SplitCidr(text: string): Result<(string, bv8), PrefixError> {
    var slash := Find(text, '/');
    if slash == |text| then Err(MissingLength)
    else
      var length := Stoull(text[slash + 1..]);
      if length == None || length.value > 255 then Err(BadLength)
      else Ok((text[..slash], length.value as bv8))
  }

  function InferFamily(text: string): Result<Family, PrefixError> {
    var address := text[..Find(text, '/')];
    if ':' in address then Ok(FamilyV6)
    else if '.' in address then Ok(FamilyV4)
    else Err(UnknownFamily)
  }

  function ParsePrefixV4(text: string): Result<PrefixV4, PrefixError> {
    var parts := SplitCidr(text);
    if parts.Err? then Err(parts.error)
    else if parts.value.1 > 32 then Err(LengthOutOfRange)
    else
      var address := InetPtonV4(CStr(parts.value.0));
      if address == None then Err(BadAddress)
      else Ok(PrefixV4(ApplyMaskV4(address.value, parts.value.1), parts.value.1))
  }

  function ParsePrefixV6(c: Inet6, text: string): Result<PrefixV6, PrefixError> {
    var parts := SplitCidr(text);
    if parts.Err? then Err(parts.error)
    else if parts.value.1 > 128 then Err(LengthOutOfRange)
    else
      var address := c.pton(CStr(parts.value.0));
      if address == None then Err(BadAddress)
      else Ok(PrefixV6(MaskBytes(address.value, parts.value.1), parts.value.1))
  }

  /** The parser for a family already known, as the snapshot reader calls it. */
  function ParseAs(c: Inet6, family: Family, text: string): Result<BinaryPrefix, PrefixError> {
    match family
    case FamilyV4 =>
      var p := ParsePrefixV4(text);
      if p.Err? then Err(p.error) else Ok(V4(p.value))
    case FamilyV6 =>
      var p := ParsePrefixV6(c, text);
      if p.Err? then Err(p.error) else Ok(V6(p.value))
  }

  function ParsePrefix(c: Inet6, text: string): Result<BinaryPrefix, PrefixError> {
    var family := InferFamily(text);
    if family.Err? then Err(family.error) else ParseAs(c, family.value, text)
  }

  function ToStringV4(p: PrefixV4): string {
    InetNtopV4(p.network) + "/" + Decimal(p.length as int)
  }

  function ToStringV6(c: Inet6, p: PrefixV6): string {
    c.ntop(p.network) + "/" + Decimal(p.length as int)
  }

  function ToString(c: Inet6, p: BinaryPrefix): string {
    match p
    case V4(q) => ToStringV4(q)
    case V6(q) => ToStringV6(c, q)
  }

  /** The prefixes the parser produces: a length in range and no bit set beyond it. */
  predicate CanonicalV4(p: PrefixV4) {
    p.length <= 32 && ApplyMaskV4(p.network, p.length) == p.network
  }

  predicate CanonicalV6(p: PrefixV6) {
    p.length <= 128 && MaskBytes(p.network, p.length) == p.network
  }

  predicate Canonical(p: BinaryPrefix) {
    match p
    case V4(q) => CanonicalV4(q)
    case V6(q) => CanonicalV6(q)
  }

  lemma ParsedIsCanonical(c: Inet6, family: Family, text: string)
    requires ParseAs(c, family, text).Ok?
    ensures Canonical(ParseAs(c, family, text).value)
    ensures FamilyOf(ParseAs(c, family, text).value) == family
  {
    var parts := SplitCidr(text).value;
    if family == FamilyV4 {
      MaskComposeV4(InetPtonV4(CStr(parts.0)).value, parts.1, parts.1);
    } else {
      MaskCompose(c.pton(CStr(parts.0)).value, parts.1, parts.1);
    }
  }

  lemma ByteRoundTrip(b: bv8)
    ensures 0 <= b as int < 256 && (b as int) as bv8 == b
  {}

  lemma OctetText(b: bv8)
    ensures IsOctetText(Decimal(b as int)) && Octet(Decimal(b as int)) == b
  {
    ByteRoundTrip(b);
    DigitsValueOfDecimal(b as int);
    DecimalLeadingDigit(b as int);
  }

  lemma PtonOfQuad(a: string, b: string, c: string, d: string)
    requires IsOctetText(a) && IsOctetText(b) && IsOctetText(c) && IsOctetText(d)
    ensures InetPtonV4(Quad(a, b, c, d)) == Some(PackV4(Octet(a), Octet(b), Octet(c), Octet(d)))
  {
    assert forall s, ch | AllDigits(s) && ch in s :: IsDigit(ch);
    QuadSplits(a, b, c, d);
  }

  /** Dotted decimal printing and reading undo each other. */
  lemma PtonOfNtopV4(n: bv32)
    ensures InetPtonV4(InetNtopV4(n)) == Some(n)
  {
    var a, b, c, d := Octet0(n), Octet1(n), Octet2(n), Octet3(n);
    OctetText(a);
    OctetText(b);
    OctetText(c);
    OctetText(d);
    PtonOfQuad(Decimal(a as int), Decimal(b as int), Decimal(c as int), Decimal(d as int));
    WordOfBytes(n);
  }

  lemma NtopV4Chars(n: bv32)
    ensures '.' in InetNtopV4(n)
    ensures forall ch <- [':', '/', '\t', '\n', '\0'] :: ch !in InetNtopV4(n)
  {
    var a, b, c, d := Octet0(n) as int, Octet1(n) as int, Octet2(n) as int, Octet3(n) as int;
    forall ch | ch in [':', '/', '\t', '\n', '\0'] ensures ch !in InetNtopV4(n) && '.' in InetNtopV4(n) {
      NotADigit(a, ch);
      NotADigit(b, ch);
      NotADigit(c, ch);
      NotADigit(d, ch);
      QuadChars(Decimal(a), Decimal(b), Decimal(c), Decimal(d), ch);
    }
    assert ':' in [':', '/', '\t', '\n', '\0'];
  }

  lemma NotADigit(n: nat, ch: char)
    requires !IsDigit(ch)
    ensures ch !in Decimal(n)
  {}

  lemma SplitCidrOfPrinted(address: string, length: bv8)
    requires '/' !in address
    ensures SplitCidr(address + "/" + Decimal(length as int)) == Ok((address, length))
    ensures var text := address + "/" + Decimal(length as int); text[..Find(text, '/')] == address
  {
    var digits := Decimal(length as int);
    FindIn(address, '/', digits);
    var text := address + "/" + digits;
    assert text[..|address|] == address;
    assert (address + "/" + digits)[|address| + 1..] == digits;
    ByteRoundTrip(length);
    StoullOfDecimal(length as int);
  }

  lemma CStrPlain(s: string)
    requires '\0' !in s
    ensures CStr(s) == s
  {
    FindIn(s, '\0', []);
  }

  /** Reading back a printed canonical prefix gives the prefix, under the right family. */
  lemma PrefixRoundTrip(c: Inet6, p: BinaryPrefix)
    requires Canonical(p)
    ensures ParsePrefix(c, ToString(c, p)) == Ok(p)
    ensures ParseAs(c, FamilyOf(p), ToString(c, p)) == Ok(p)
    ensures InferFamily(ToString(c, p)) == Ok(FamilyOf(p))
  {
    match p
    case V4(q) =>
      NtopV4Chars(q.network);
      SplitCidrOfPrinted(InetNtopV4(q.network), q.length);
      CStrPlain(InetNtopV4(q.network));
      PtonOfNtopV4(q.network);
    case V6(q) =>
      assert PrintsReadably(c, q.network);
      SplitCidrOfPrinted(c.ntop(q.network), q.length);
      CStrPlain(c.ntop(q.network));
  }

  function AddressText(c: Inet6, p: BinaryPrefix): string {
    match p
    case V4(q) => InetNtopV4(q.network)
    case V6(q) => c.ntop(q.network)
  }

  function LengthOf(p: BinaryPrefix): bv8 {
    match p
    case V4(q) => q.length
    case V6(q) => q.length
  }

  lemma AddressChars(c: Inet6, p: BinaryPrefix)
    ensures forall ch <- ['/', '\t', '\n', '\0'] :: ch !in AddressText(c, p)
    ensures ':' in AddressText(c, p) <==> p.V6?
  {
    match p
    case V4(q) =>
      NtopV4Chars(q.network);
      assert ':' in [':', '/', '\t', '\n', '\0'];
    case V6(q) =>
      assert PrintsReadably(c, q.network);
  }

  /** No two prefixes of either family print the same text. */
  lemma PrintingInjective(c: Inet6, p: BinaryPrefix, q: BinaryPrefix)
    requires ToString(c, p) == ToString(c, q)
    ensures p == q
  {
    AddressChars(c, p);
    AddressChars(c, q);
    assert '/' in ['/', '\t', '\n', '\0'];
    SplitCidrOfPrinted(AddressText(c, p), LengthOf(p));
    SplitCidrOfPrinted(AddressText(c, q), LengthOf(q));
    match p
    case V4(x) =>
      PtonOfNtopV4(x.network);
      PtonOfNtopV4(q.v4.network);
    case V6(x) =>
      assert PrintsReadably(c, x.network) && PrintsReadably(c, q.v6.network);
  }

  lemma PrintedChars(c: Inet6, p: BinaryPrefix)
    ensures '\t' !in ToString(c, p) && '\n' !in ToString(c, p)
  {
    AddressChars(c, p);
    assert '\t' in ['/', '\t', '\n', '\0'] && '\n' in ['/', '\t', '\n', '\0'];
    NotADigit(LengthOf(p) as int, '\t');
    NotADigit(LengthOf(p) as int, '\n');
    assert ToString(c, p) == AddressText(c, p) + "/" + Decimal(LengthOf(p) as int);
  }

  // ----- What the parser makes of a text, bit by bit -----

  lemma NtopV4Means(n: bv32)
    ensures InetNtopV4(n) == Decimal((n >> 24) as int) + "." + (Decimal(((n >> 16) & 0xFF) as int) + "." +
                             (Decimal(((n >> 8) & 0xFF) as int) + "." + Decimal((n & 0xFF) as int)))
  {
    OctetsOfWord(n);
  }

  lemma OctetsOfWord(n: bv32)
    ensures Octet0(n) as int == (n >> 24) as int && Octet1(n) as int == ((n >> 16) & 0xFF) as int
    ensures Octet2(n) as int == ((n >> 8) & 0xFF) as int && Octet3(n) as int == (n & 0xFF) as int
  {}

  lemma OctetsOfPack(a: bv8, b: bv8, c: bv8, d: bv8)
    ensures var n := PackV4(a, b, c, d); Octet0(n) == a && Octet1(n) == b && Octet2(n) == c && Octet3(n) == d
  {}

  lemma OctetIsDecimal(s: string)
    requires IsOctetText(s)
    ensures Decimal(Octet(s) as int) == s
  {
    SmallByte(DigitsValue(s));
    DecimalUnique(s);
  }

  /** The one text of an address: four plain decimal numbers and three dots. */
  lemma PtonV4Means(s: string, n: bv32)
    ensures InetPtonV4(s) == Some(n) <==> s == InetNtopV4(n)
  {
    PtonOfNtopV4(n);
    if InetPtonV4(s) == Some(n) {
      var parts := Split(s, '.');
      SplitJoins(s, '.');
      FourJoined(parts);
      OctetIsDecimal(parts[0]);
      OctetIsDecimal(parts[1]);
      OctetIsDecimal(parts[2]);
      OctetIsDecimal(parts[3]);
      OctetsOfPack(Octet(parts[0]), Octet(parts[1]), Octet(parts[2]), Octet(parts[3]));
    }
  }

  lemma FourJoined(parts: seq<string>)
    requires |parts| == 4
    ensures Joined(parts, '.') == Quad(parts[0], parts[1], parts[2], parts[3])
  {
    var rest := parts[1..];
    assert rest[1..] == parts[2..] && rest[1..][1..] == parts[3..];
    assert Joined(parts[3..], '.') == parts[3];
    assert Joined(parts[2..], '.') == parts[2] + "." + parts[3];
    assert Joined(rest, '.') == parts[1] + "." + (parts[2] + "." + parts[3]);
  }

  lemma SlashSplits(address: string, rest: string)
    requires '/' !in address
    ensures Find(address + "/" + rest, '/') == |address| && Find(address, '/') == |address|
    ensures (address + "/" + rest)[..|address|] == address && (address + "/" + rest)[|address| + 1..] == rest
  {
    FindIn(address, '/', rest);
  }

  /** What decides the family is a colon, else a dot, before the first slash or anywhere without one. */
  lemma FamilyMeans(address: string, rest: string)
    requires '/' !in address
    ensures InferFamily(address + "/" + rest) == InferFamily(address)
         == if ':' in address then Ok(FamilyV6) else if '.' in address then Ok(FamilyV4) else Err(UnknownFamily)
  {
    SlashSplits(address, rest);
    assert address[..|address|] == address;
  }

  /** An address ends at a zero byte, if there is one. */
  lemma CStrMeans(s: string, junk: string)
    requires '\0' !in s && (junk == "" || junk[0] == '\0')
    ensures CStr(s + junk) == s
  {
    if junk == "" {
      assert s + junk == s;
      CStrPlain(s);
    } else {
      FindIn(s, '\0', junk[1..]);
      assert s + junk == s + ['\0'] + junk[1..];
      assert (s + junk)[..|s|] == s;
    }
  }

  /** Bit i of the masked word is bit i of the word within the length, and clear beyond it. */
  lemma MaskedBitV4(n: bv32, length: bv8, i: bv8)
    requires length <= 32 && i < 32
    ensures (ApplyMaskV4(n, length) >> (31 - i)) & 1 == if i < length then (n >> (31 - i)) & 1 else 0
  {}

  lemma SplitCidrMeans(address: string, rest: string)
    requires '/' !in address
    ensures SplitCidr(address) == Err(MissingLength)
    ensures SplitCidr(address + "/" + rest) ==
      if Stoull(rest) == None || Stoull(rest).value > 255 then Err(BadLength)
      else Ok((address, Stoull(rest).value as bv8))
  {
    SlashSplits(address, rest);
  }

  lemma LengthRead(address: string, lengthText: string, length: bv8)
    requires '/' !in address && Stoull(lengthText) == Some(length as int)
    ensures SplitCidr(address + "/" + lengthText) == Ok((address, length))
  {
    SplitCidrMeans(address, lengthText);
    LengthRoundTrip(length);
  }

  lemma ReadV4(n: bv32, junk: string, lengthText: string, length: bv8)
    requires '/' !in junk && (junk == "" || junk[0] == '\0') && Stoull(lengthText) == Some(length as int) && length <= 32
    ensures ParsePrefixV4(InetNtopV4(n) + junk + "/" + lengthText) == Ok(PrefixV4(ApplyMaskV4(n, length), length))
  {
    PlainV4(n);
    LengthRead(InetNtopV4(n) + junk, lengthText, length);
    CStrMeans(InetNtopV4(n), junk);
    PtonOfNtopV4(n);
  }

  lemma PlainV4(n: bv32)
    ensures var s := InetNtopV4(n); '/' !in s && '\0' !in s && ':' !in s && '.' in s
  {
    NtopV4Chars(n);
    assert '/' in [':', '/', '\t', '\n', '\0'] && '\0' in [':', '/', '\t', '\n', '\0'] && ':' in [':', '/', '\t', '\n', '\0'];
  }

  /**
   * Whatever address is written, host bits included, the parser gives the network of its first
   * `length` bits; what follows a zero byte in the address is ignored.
   */
  lemma ParsesV4(n: bv32, junk: string, lengthText: string, length: bv8, i: bv8)
    requires '/' !in junk && (junk == "" || junk[0] == '\0') && Stoull(lengthText) == Some(length as int) && length <= 32
    requires i < 32
    ensures var parsed := ParsePrefixV4(InetNtopV4(n) + junk + "/" + lengthText);
      && parsed.Ok? && parsed.value.length == length
      && (parsed.value.network >> (31 - i)) & 1 == if i < length then (n >> (31 - i)) & 1 else 0
  {
    ReadV4(n, junk, lengthText, length);
    MaskedBitV4(n, length, i);
  }

  lemma LengthRoundTrip(length: bv8)
    ensures 0 <= length as int < 256 && (length as int) as bv8 == length
  {}

  /** Nothing else is parsed as an IPv4 prefix. */
  lemma OnlyParsesV4(text: string) returns (n: bv32, junk: string, lengthText: string)
    requires ParsePrefixV4(text).Ok?
    ensures text == InetNtopV4(n) + junk + "/" + lengthText
    ensures '/' !in junk && (junk == "" || junk[0] == '\0')
    ensures Stoull(lengthText) == Some(ParsePrefixV4(text).value.length as int) && ParsePrefixV4(text).value.length <= 32
  {
    var address;
    address, lengthText := CidrParts(text);
    var end := Find(address, '\0');
    junk := address[end..];
    n := InetPtonV4(CStr(address)).value;
    PtonV4Means(CStr(address), n);
    assert address == CStr(address) + junk;
    assert forall ch <- junk :: ch in address;
  }

  lemma CidrParts(text: string) returns (address: string, rest: string)
    requires SplitCidr(text).Ok?
    ensures text == address + "/" + rest && '/' !in address && address == SplitCidr(text).value.0
    ensures Stoull(rest) == Some(SplitCidr(text).value.1 as int)
  {
    var slash := Find(text, '/');
    address, rest := text[..slash], text[slash + 1..];
    SmallByte(Stoull(rest).value);
  }

  lemma MaskedBitV6(network: seq<bv8>, length: bv8, j: nat, k: bv8)
    requires j < |network| && k < 8
    ensures (MaskBytes(network, length)[j] >> (7 - k)) & 1
         == if 8 * j + k as int < length as int then (network[j] >> (7 - k)) & 1 else 0
  {
    var i := 8 * j + k as int;
    assert i / 8 == j && i % 8 == k as int;
    MaskBits(network, length, i);
    ByteBitMeans(network[j], k);
    ByteBitMeans(MaskBytes(network, length)[j], k);
  }

  lemma ByteBitMeans(b: bv8, k: bv8)
    requires k < 8
    ensures ByteBit(b, k as int) <==> (b >> (7 - k)) & 1 == 1
    ensures (b >> (7 - k)) & 1 == 1 || (b >> (7 - k)) & 1 == 0
  {
    assert k in {0, 1, 2, 3, 4, 5, 6, 7};
  }

  lemma ReadV6(c: Inet6, address: string, bytes: Bytes16, junk: string, lengthText: string, length: bv8)
    requires c.pton(address) == Some(bytes) && '/' !in address && '\0' !in address
    requires '/' !in junk && (junk == "" || junk[0] == '\0') && Stoull(lengthText) == Some(length as int) && length <= 128
    ensures ParsePrefixV6(c, address + junk + "/" + lengthText) == Ok(PrefixV6(MaskBytes(bytes, length), length))
  {
    LengthRead(address + junk, lengthText, length);
    CStrMeans(address, junk);
  }

  /** The same for IPv6, for any text the platform reads as an address. */
  lemma ParsesV6(c: Inet6, address: string, bytes: Bytes16, junk: string, lengthText: string, length: bv8, j: nat, k: bv8)
    requires c.pton(address) == Some(bytes) && '/' !in address && '\0' !in address
    requires '/' !in junk && (junk == "" || junk[0] == '\0') && Stoull(lengthText) == Some(length as int) && length <= 128
    requires j < 16 && k < 8
    ensures var parsed := ParsePrefixV6(c, address + junk + "/" + lengthText);
      && parsed.Ok? && parsed.value.length == length
      && (parsed.value.network[j] >> (7 - k)) & 1
         == if 8 * j + k as int < length as int then (bytes[j] >> (7 - k)) & 1 else 0
  {
    ReadV6(c, address, bytes, junk, lengthText, length);
    MaskedBitV6(bytes, length, j, k);
  }

  /** The family is told from the address alone, and a colon in front of the first slash decides. */
  lemma ParsesAsItsFamily(c: Inet6, address: string, rest: string)
    requires '/' !in address
    ensures var text := address + "/" + rest;
      ParsePrefix(c, text) ==
        if ':' in address then (var p := ParsePrefixV6(c, text); if p.Err? then Err(p.error) else Ok(V6(p.value)))
        else if '.' in address then (var p := ParsePrefixV4(text); if p.Err? then Err(p.error) else Ok(V4(p.value)))
        else Err(UnknownFamily)
    ensures ParsePrefix(c, address) == if ':' in address || '.' in address then Err(MissingLength) else Err(UnknownFamily)
  {
    FamilyMeans(address, rest);
    SplitCidrMeans(address, rest);
  }

  /** In this order: no slash, no length up to 255, a length too long for the family, no address. */
  lemma ParseErrors(c: Inet6, family: Family, address: string, rest: string)
    requires '/' !in address
    ensures ParseAs(c, family, address) == Err(MissingLength)
    ensures var parsed, length := ParseAs(c, family, address + "/" + rest), Stoull(rest);
      var longest, readable := (if family == FamilyV4 then 32 else 128),
        (if family == FamilyV4 then InetPtonV4(CStr(address)).Some? else c.pton(CStr(address)).Some?);
      if length == None || length.value > 255 then parsed == Err(BadLength)
      else if length.value > longest then parsed == Err(LengthOutOfRange)
      else if readable then parsed.Ok?
      else parsed == Err(BadAddress)
  {
    SplitCidrMeans(address, rest);
    if Stoull(rest).Some? && Stoull(rest).value <= 255 {
      SmallByte(Stoull(rest).value);
    }
  }

  lemma NotLastByte(b: bv8)
    requires b as int < 255
    ensures b < 255
  {}

  lemma NextByte(b: bv8)
    requires b < 255
    ensures (b + 1) as int == b as int + 1
  {}

  /** Every number up to 255 is some byte's. */
  lemma {:induction false} FindByte(n: nat) returns (b: bv8)
    requires n <= 255
    ensures b as int == n
  {
    if n == 0 {
      b := 0;
    } else {
      var c := FindByte(n - 1);
      NotLastByte(c);
      NextByte(c);
      b := c + 1;
    }
  }

  lemma ByteOfNumber(n: nat)
    requires n <= 255
    ensures (n as bv8) as int == n
  {
    var b := FindByte(n);
    ByteRoundTrip(b);
  }

  lemma ByteAtMost(b: bv8)
    ensures b <= 32 <==> b as int <= 32
    ensures b <= 128 <==> b as int <= 128
  {}

  lemma SmallByte(n: nat)
    requires n <= 255
    ensures (n as bv8) as int == n
    ensures n <= 32 <==> (n as bv8) <= 32
    ensures n <= 128 <==> (n as bv8) <= 128
  {
    ByteOfNumber(n);
    ByteAtMost(n as bv8);
  }

  /** A printed prefix is its address, one slash, and the length without needless zeros. */
  lemma PrintedForm(c: Inet6, p: BinaryPrefix) returns (digits: string)
    ensures ToString(c, p) == (match p case V4(q) => InetNtopV4(q.network) case V6(q) => c.ntop(q.network)) + "/" + digits
    ensures digits != [] && AllDigits(digits) && DigitsValue(digits) == LengthOf(p) as int
    ensures |digits| > 1 ==> digits[0] != '0'
  {
    digits := Decimal(LengthOf(p) as int);
    DigitsValueOfDecimal(LengthOf(p) as int);
    DecimalLeadingDigit(LengthOf(p) as int);
  }
}
