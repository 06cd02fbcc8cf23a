/** The TNBU envelope: its 40-byte header, PKCS#7 padding, and the two directions of the
    inform codec over ciphers and a compressor that are parameters. */
module Packet {
  import opened Basics

  type byte = b: int | 0 <= b < 0x100
  type bytes = seq<byte>

  const BLOCK := 16
  const HEADER_BYTES := 40
  const GCM_TAG := 16
  const MAX_DECODED := 16 * 1024 * 1024
  const MAX_ENCODED := MAX_DECODED + 64 * 1024
  const MAGIC: bytes := [0x54, 0x4E, 0x42, 0x55]
  const PACKET_VERSION := 0
  const PAYLOAD_VERSION := 1

  // ---- PKCS#7 padding, section 6.3 of RFC 5652 ----

  function Repeat(b: byte, n: nat): (r: bytes)
    ensures |r| == n && forall i :: 0 <= i < n ==> r[i] == b
  {
    seq(n, _ => b)
  }

  function PadLength(length: nat, block: int): (n: int)
    requires 1 <= block <= 255
    ensures 1 <= n <= block && (length + n) % block == 0
  {
    PaddedIsAligned(length, block);
    block - length % block
  }

  lemma PaddedIsAligned(length: nat, block: int)
    requires 1 <= block
    ensures (length + (block - length % block)) % block == 0
  {
    var q := length / block;
    assert length + (block - length % block) == (q + 1) * block;
    MultipleModulo(q + 1, block);
  }

  lemma MultipleModulo(q: int, block: int)
    requires 1 <= block
    ensures q * block % block == 0
  {
    assert q * block == q * block + 0;
    DivisionIsUnique(q * block, block, q, 0);
  }

  lemma DivisionIsUnique(x: int, d: int, q: int, r: int)
    requires 0 <= r < d && x == q * d + r
    ensures x / d == q && x % d == r
  {
    assert x == x / d * d + x % d;
    var gap := x / d - q;
    assert gap * d == r - x % d;
    assert gap >= 1 ==> gap * d >= d;
    assert gap <= -1 ==> gap * d <= -d;
  }

  function Pad(data: bytes, block: int): bytes
    requires 1 <= block <= 255
  {
    var n := PadLength(|data|, block);
    data + Repeat(n, n)
  }

  function Unpad(data: bytes, block: int): Option<bytes>
    requires 1 <= block <= 255
  {
    if data == [] || |data| % block != 0 then None
    else
      var n := data[|data| - 1];
      if n == 0 || n > block || n > |data| then None
      else if exists i :: |data| - n <= i < |data| && data[i] != n then None
      else Some(data[..|data| - n])
  }

  method Pkcs7Pad(data: bytes, block: int) returns (out: bytes)
    requires 1 <= block <= 255
    ensures out == Pad(data, block)
  {
    var padLen := block - |data| % block;
    if padLen == 0 {
      padLen := block;
    }
    out := data;
    for i := 0 to padLen
      invariant out == data + Repeat(padLen, i)
    {
      out := out + [padLen];
    }
  }

  method Pkcs7Unpad(data: bytes, block: int) returns (r: Option<bytes>)
    requires 1 <= block <= 255
    ensures r == Unpad(data, block)
  {
    if data == [] || |data| % block != 0 {
      return None;
    }
    var padLen := data[|data| - 1];
    if padLen == 0 || padLen > block || padLen > |data| {
      return None;
    }
    for i := |data| - padLen to |data|
      invariant forall j :: |data| - padLen <= j < i ==> data[j] == padLen
    {
      if data[i] != padLen {
        return None;
      }
    }
    return Some(data[..|data| - padLen]);
  }

  /** Padding is undone exactly. */
  lemma UnpadInvertsPad(data: bytes, block: int)
    requires 1 <= block <= 255
    ensures Unpad(Pad(data, block), block) == Some(data)
  {
    var padded := Pad(data, block);
    assert padded[..|data|] == data;
  }

  /** What unpadding accepts is exactly what padding produces, and padding restores it. */
  lemma UnpadAcceptsIff(data: bytes, block: int)
    requires 1 <= block <= 255
    ensures Unpad(data, block).Some? <==> exists plain :: data == Pad(plain, block)
    ensures Unpad(data, block).Some? ==> Pad(Unpad(data, block).value, block) == data
  {
    if Unpad(data, block).Some? {
      var n := data[|data| - 1];
      var plain := data[..|data| - n];
      PadLengthIsUnique(|plain|, block, n);
      assert data == Pad(plain, block);
    }
    if plain :| data == Pad(plain, block) {
      UnpadInvertsPad(plain, block);
    }
  }

  lemma PadLengthIsUnique(length: nat, block: int, n: int)
    requires 1 <= block <= 255 && 1 <= n <= block && (length + n) % block == 0
    ensures n == PadLength(length, block)
  {
    var m := PadLength(length, block);
    var a, b := (length + n) / block, (length + m) / block;
    assert length + n == a * block && length + m == b * block;
    assert n - m == (a - b) * block;
    assert m - n == (b - a) * block;
    if a > b {
      BlockOrMore(a - b, block);
    } else if a < b {
      BlockOrMore(b - a, block);
    }
  }

  lemma BlockOrMore(d: int, block: int)
    requires d >= 1 && block >= 1
    ensures d * block >= block
  {
    assert (d - 1) * block >= 0;
  }

  // ---- big-endian fields ----

  function U16(n: int): (b: bytes)
    requires 0 <= n < 0x1_0000
    ensures |b| == 2
  {
    [n / 0x100, n % 0x100]
  }

  function U32(n: int): (b: bytes)
    requires 0 <= n < 0x1_0000_0000
    ensures |b| == 4
  {
    [n / 0x100_0000, n / 0x1_0000 % 0x100, n / 0x100 % 0x100, n % 0x100]
  }

  function ReadU16(b: bytes): (n: int)
    requires |b| == 2
    ensures 0 <= n < 0x1_0000
  {
    (b[0] as int) * 0x100 + b[1]
  }

  function ReadU32(b: bytes): (n: int)
    requires |b| == 4
    ensures 0 <= n < 0x1_0000_0000
  {
    (b[0] as int) * 0x100_0000 + (b[1] as int) * 0x1_0000 + (b[2] as int) * 0x100 + b[3]
  }

  lemma U32Reads(n: int)
    requires 0 <= n < 0x1_0000_0000
    ensures ReadU32(U32(n)) == n
  {
    var q := n / 0x100;
    var r := q / 0x100;
    assert r == n / 0x1_0000 && r / 0x100 == n / 0x100_0000;
    assert n == q * 0x100 + n % 0x100 && q == r * 0x100 + q % 0x100 && r == r / 0x100 * 0x100 + r % 0x100;
  }

  lemma U32Writes(b: bytes)
    requires |b| == 4
    ensures U32(ReadU32(b)) == b
  {
    var b0: int, b1: int, b2: int, b3: int := b[0], b[1], b[2], b[3];
    var n := ReadU32(b);
    var q := b0 * 0x1_0000 + b1 * 0x100 + b2;
    var r := b0 * 0x100 + b1;
    DivisionIsUnique(n, 0x100, q, b3);
    DivisionIsUnique(q, 0x100, r, b2);
    DivisionIsUnique(r, 0x100, b0, b1);
    assert n / 0x1_0000 == r && n / 0x100_0000 == b0;
  }

  lemma U16RoundTrip(n: int, b: bytes)
    requires 0 <= n < 0x1_0000 && |b| == 2
    ensures ReadU16(U16(n)) == n && U16(ReadU16(b)) == b
  {
  }

  // ---- flags ----

  type Flags = f: int | 0 <= f < 0x1_0000

  predicate Encrypted(f: Flags) { f % 2 == 1 }

  predicate Zlib(f: Flags) { f / 2 % 2 == 1 }

  predicate Snappy(f: Flags) { f / 4 % 2 == 1 }

  predicate Gcm(f: Flags) { f / 8 % 2 == 1 }

  predicate KnownFlags(f: Flags) { f < 16 }

  datatype Options = Options(zlib: bool, gcm: bool)

  function RequestFlags(opts: Options): Flags {
    1 + (if opts.zlib then 2 else 0) + if opts.gcm then 8 else 0
  }

  // ---- header ----

  /** What copy leaves in a zeroed field of n bytes. */
  function Fit(b: bytes, n: nat): (r: bytes)
    ensures |r| == n
    ensures |b| == n ==> r == b
  {
    if |b| >= n then b[..n] else b + Repeat(0, n - |b|)
  }

  function Header(mac: bytes, flags: Flags, iv: bytes, length: int): (h: bytes)
    requires 0 <= length < 0x1_0000_0000
    ensures |h| == HEADER_BYTES
  {
    MAGIC + U32(PACKET_VERSION) + Fit(mac, 6) + U16(flags) + Fit(iv, 16) + U32(PAYLOAD_VERSION) + U32(length)
  }

  lemma FitAt(room: bytes, source: bytes)
    requires forall i :: 0 <= i < |room| ==> room[i] == if i < |source| then source[i] else 0
    ensures room == Fit(source, |room|)
  {
    var fitted := Fit(source, |room|);
    forall i | 0 <= i < |room|
      ensures fitted[i] == room[i]
    {
      if |source| < |room| && i >= |source| {
        assert fitted[i] == Repeat(0, |room| - |source|)[i - |source|];
      }
    }
  }

  /** copy(buffer[at:at+room], source) into room that is still zero. */
  method CopyInto(buffer: array<byte>, at: nat, room: nat, source: bytes)
    requires at + room <= buffer.Length
    requires forall i :: at <= i < buffer.Length ==> buffer[i] == 0
    modifies buffer
    ensures buffer[..at + room] == old(buffer[..at]) + Fit(source, room)
    ensures forall i :: at + room <= i < buffer.Length ==> buffer[i] == 0
  {
    var n := if |source| < room then |source| else room;
    for i := 0 to n
      invariant buffer[..at] == old(buffer[..at])
      invariant forall j :: at <= j < at + i ==> buffer[j] == source[j - at]
      invariant forall j :: at + i <= j < buffer.Length ==> buffer[j] == 0
    {
      buffer[at + i] := source[i];
    }
    FitAt(buffer[at..at + room], source);
    assert buffer[..at + room] == buffer[..at] + buffer[at..at + room];
  }

  method MakeHeader(mac: bytes, flags: Flags, iv: bytes, length: int) returns (header: array<byte>)
    requires 0 <= length < 0x1_0000_0000
    ensures fresh(header) && header[..] == Header(mac, flags, iv, length)
  {
    hide U32, U16, Fit;
    header := new byte[HEADER_BYTES](_ => 0);
    CopyInto(header, 0, 4, MAGIC);
    CopyInto(header, 4, 4, U32(PACKET_VERSION));
    CopyInto(header, 8, 6, mac);
    CopyInto(header, 14, 2, U16(flags));
    CopyInto(header, 16, 16, iv);
    CopyInto(header, 32, 4, U32(PAYLOAD_VERSION));
    CopyInto(header, 36, 4, U32(length));
    assert header[..] == header[..40];
  }

  // ---- parsing ----

  datatype Packet = Packet(mac: bytes, flags: Flags, iv: bytes, payload: bytes)

  datatype Error =
    | TooShort | BadMagic | BadPacketVersion | BadPayloadVersion | TooLong | LengthMismatch
    | NotEncrypted | UnknownFlags | ShorterThanTag
    | SnappyUnsupported | ZlibUnsupported | CipherMismatch
    | BadKey | BadPadding | BadTag | BadCompression | PlaintextTooLong
    | BadMAC | BodyTooLong | NoRandom

  /** The header of a packet, once its fixed fields and its length are in order. */
  function ParseEnvelope(data: bytes): Result<Packet, Error> {
    if |data| < HEADER_BYTES then Err(TooShort)
    else if data[..4] != MAGIC then Err(BadMagic)
    else if ReadU32(data[4..8]) != PACKET_VERSION then Err(BadPacketVersion)
    else if ReadU32(data[32..36]) != PAYLOAD_VERSION then Err(BadPayloadVersion)
    else
      var length := ReadU32(data[36..40]);
      if length > MAX_ENCODED then Err(TooLong)
      else if length != |data| - HEADER_BYTES then Err(LengthMismatch)
      else Ok(Packet(data[8..14], ReadU16(data[14..16]), data[16..32], data[HEADER_BYTES..]))
  }

  function CheckFlags(p: Packet): Option<Error> {
    if !Encrypted(p.flags) then Some(NotEncrypted)
    else if !KnownFlags(p.flags) then Some(UnknownFlags)
    else if Gcm(p.flags) && |p.payload| < GCM_TAG then Some(ShorterThanTag)
    else None
  }

  function ParsePacket(data: bytes): Result<Packet, Error> {
    var p := ParseEnvelope(data);
    if p.Err? then p
    else
      var refused := CheckFlags(p.value);
      if refused.Some? then Err(refused.value) else p
  }

  /** Every accepted packet is its own header and payload, byte for byte. */
  lemma ParsedPacketIsReproduced(data: bytes)
    requires ParsePacket(data).Ok?
    ensures var p := ParsePacket(data).value;
            Header(p.mac, p.flags, p.iv, |p.payload|) + p.payload == data
  {
    hide U32, ReadU32, U16, ReadU16;
    U32Writes(data[4..8]);
    U16RoundTrip(0, data[14..16]);
    U32Writes(data[32..36]);
    U32Writes(data[36..40]);
    assert data == data[..4] + data[4..8] + data[8..14] + data[14..16] + data[16..32] + data[32..36] + data[36..40] + data[40..];
  }

  lemma HeaderParses(mac: bytes, flags: Flags, iv: bytes, payload: bytes)
    requires |mac| == 6 && |iv| == 16 && |payload| <= MAX_ENCODED
    ensures ParseEnvelope(Header(mac, flags, iv, |payload|) + payload) == Ok(Packet(mac, flags, iv, payload))
    ensures (Header(mac, flags, iv, |payload|) + payload)[..HEADER_BYTES] == Header(mac, flags, iv, |payload|)
  {
    var header := Header(mac, flags, iv, |payload|);
    var data := header + payload;
    hide U32, ReadU32, U16, ReadU16;
    U32Reads(PACKET_VERSION);
    U32Reads(PAYLOAD_VERSION);
    U32Reads(|payload|);
    U16RoundTrip(flags, [0, 0]);
    assert data[..4] == MAGIC;
    assert data[4..8] == U32(PACKET_VERSION);
    assert data[8..14] == mac;
    assert data[14..16] == U16(flags);
    assert data[16..32] == iv;
    assert data[32..36] == U32(PAYLOAD_VERSION);
    assert data[36..40] == U32(|payload|);
    assert data[40..] == payload;
  }

  // ---- ciphers ----

  /** AES-CBC over whole blocks, AES-GCM with the header as associated data, and zlib. */
  datatype Ciphers = Ciphers(
    cbcEncrypt: (bytes, bytes, bytes) -> bytes,
    cbcDecrypt: (bytes, bytes, bytes) -> bytes,
    seal: (bytes, bytes, bytes, bytes) -> bytes,
    open: (bytes, bytes, bytes, bytes) -> Option<bytes>,
    compress: bytes -> Option<bytes>,
    inflate: bytes -> Option<bytes>)

  ghost predicate CbcLawful(c: Ciphers) {
    forall key, iv, b | |key| == 16 && |iv| == 16 && |b| % BLOCK == 0 ::
      |c.cbcEncrypt(key, iv, b)| == |b| && c.cbcDecrypt(key, iv, c.cbcEncrypt(key, iv, b)) == b
  }

  ghost predicate GcmLawful(c: Ciphers) {
    forall key, iv, b, header | |key| == 16 && |iv| == 16 ::
      |c.seal(key, iv, b, header)| == |b| + GCM_TAG && c.open(key, iv, c.seal(key, iv, b, header), header) == Some(b)
  }

  ghost predicate ZlibLawful(c: Ciphers) {
    forall b :: c.compress(b).Some? ==> c.inflate(c.compress(b).value) == Some(b)
  }

  // ---- decoding ----

  function Decrypt(c: Ciphers, p: Packet, key: bytes, header: bytes): Result<bytes, Error> {
    if !Encrypted(p.flags) then Ok(p.payload)
    else if |key| != 16 then Err(BadKey)
    else if Gcm(p.flags) then
      if |p.payload| < GCM_TAG then Err(ShorterThanTag)
      else
        var plain := c.open(key, p.iv, p.payload, header);
        if plain.Some? then Ok(plain.value) else Err(BadTag)
    else if p.payload == [] || |p.payload| % BLOCK != 0 then Err(BadPadding)
    else
      var plain := Unpad(c.cbcDecrypt(key, p.iv, p.payload), BLOCK);
      if plain.Some? then Ok(plain.value) else Err(BadPadding)
  }

  function Decompress(c: Ciphers, body: bytes): Result<bytes, Error> {
    var out := c.inflate(body);
    if out.None? then Err(BadCompression)
    else if |out.value| > MAX_DECODED then Err(PlaintextTooLong)
    else Ok(out.value)
  }

  datatype Decoded = Decoded(packet: Packet, body: bytes)

  /** The direction-neutral decoder. */
  function Decode(c: Ciphers, data: bytes, key: bytes): Result<Decoded, Error> {
    var parsed := ParsePacket(data);
    if parsed.Err? then Err(parsed.error)
    else
      var p := parsed.value;
      if Snappy(p.flags) then Err(SnappyUnsupported)
      else
        var body := Decrypt(c, p, key, data[..HEADER_BYTES]);
        if body.Err? then Err(body.error)
        else
          var plain := if Zlib(p.flags) then Decompress(c, body.value) else body;
          if plain.Err? then Err(plain.error)
          else if |plain.value| > MAX_DECODED then Err(PlaintextTooLong)
          else Ok(Decoded(p, plain.value))
  }

  /** The stricter decoder for what a controller sends back. */
  function DecodeControllerResponse(c: Ciphers, data: bytes, key: bytes, expectedGCM: bool): Result<Decoded, Error> {
    var parsed := ParsePacket(data);
    if parsed.Err? then Err(parsed.error)
    else
      var p := parsed.value;
      if Gcm(p.flags) != expectedGCM then Err(CipherMismatch)
      else
        var body := Decrypt(c, p, key, data[..HEADER_BYTES]);
        if body.Err? then Err(body.error)
        else if Zlib(p.flags) then Err(ZlibUnsupported)
        else if Snappy(p.flags) then Err(SnappyUnsupported)
        else if |body.value| > MAX_DECODED then Err(PlaintextTooLong)
        else Ok(Decoded(p, body.value))
  }

  /** A response is accepted exactly when the neutral decoder accepts it, it uses the cipher
      of the request and it is not compressed; the body is then the same. */
  lemma ResponseAcceptedIff(c: Ciphers, data: bytes, key: bytes, expectedGCM: bool, d: Decoded)
    ensures DecodeControllerResponse(c, data, key, expectedGCM) == Ok(d) <==>
              Decode(c, data, key) == Ok(d) && Gcm(d.packet.flags) == expectedGCM && !Zlib(d.packet.flags)
  {
  }

  // ---- encoding ----

  /** The wire form of a payload under a nonce the random source supplied. */
  function Encode(c: Ciphers, mac: bytes, key: bytes, payload: bytes, opts: Options, random: Option<bytes>): Result<bytes, Error>
    requires random.Some? ==> |random.value| == 16
  {
    if |mac| != 6 then Err(BadMAC)
    else if |key| != 16 then Err(BadKey)
    else if |payload| > MAX_DECODED then Err(PlaintextTooLong)
    else
      var body := if opts.zlib then c.compress(payload) else Some(payload);
      if body.None? then Err(BadCompression)
      else if |body.value| > MAX_ENCODED - BLOCK then Err(BodyTooLong)
      else if random.None? then Err(NoRandom)
      else
        var iv := random.value;
        if opts.gcm then
          var header := Header(mac, RequestFlags(opts), iv, |body.value| + GCM_TAG);
          Ok(header + c.seal(key, iv, body.value, header))
        else
          var blocks := c.cbcEncrypt(key, iv, Pad(body.value, BLOCK));
          if |blocks| < 0x1_0000_0000 then Ok(Header(mac, RequestFlags(opts), iv, |blocks|) + blocks) else Err(BodyTooLong)
  }

  method EncodeJSON(c: Ciphers, mac: bytes, key: bytes, payload: bytes, opts: Options, random: Option<bytes>)
    returns (r: Result<bytes, Error>)
    requires random.Some? ==> |random.value| == 16
    requires CbcLawful(c)
    ensures r == Encode(c, mac, key, payload, opts, random)
  {
    hide Header, Pad, CbcLawful, U32, U16, Fit;
    if |mac| != 6 {
      return Err(BadMAC);
    }
    if |key| != 16 {
      return Err(BadKey);
    }
    if |payload| > MAX_DECODED {
      return Err(PlaintextTooLong);
    }
    var body := payload;
    var flags := 1;
    if opts.zlib {
      var compressed := c.compress(body);
      if compressed.None? {
        return Err(BadCompression);
      }
      body := compressed.value;
      flags := flags + 2;
    }
    if |body| > MAX_ENCODED - BLOCK {
      return Err(BodyTooLong);
    }
    if random.None? {
      return Err(NoRandom);
    }
    var iv := random.value;
    if opts.gcm {
      flags := flags + 8;
      var header := MakeHeader(mac, flags, iv, |body| + GCM_TAG);
      body := c.seal(key, iv, body, header[..]);
      return Ok(header[..] + body);
    }
    PadFits(body);
    body := Pkcs7Pad(body, BLOCK);
    CbcKeepsLength(c, key, iv, body);
    body := c.cbcEncrypt(key, iv, body);
    var header := MakeHeader(mac, flags, iv, |body|);
    return Ok(header[..] + body);
  }

  lemma RequestFlagsRead(opts: Options)
    ensures var f := RequestFlags(opts);
            Encrypted(f) && KnownFlags(f) && !Snappy(f) && (Zlib(f) <==> opts.zlib) && (Gcm(f) <==> opts.gcm)
  {
  }

  lemma CbcKeepsLength(c: Ciphers, key: bytes, iv: bytes, b: bytes)
    requires CbcLawful(c) && |key| == 16 && |iv| == 16 && |b| % BLOCK == 0
    ensures |c.cbcEncrypt(key, iv, b)| == |b| && c.cbcDecrypt(key, iv, c.cbcEncrypt(key, iv, b)) == b
  {
  }

  lemma SealedLength(c: Ciphers, key: bytes, iv: bytes, b: bytes, header: bytes)
    requires GcmLawful(c) && |key| == 16 && |iv| == 16
    ensures |c.seal(key, iv, b, header)| == |b| + GCM_TAG
  {
  }

  lemma PadFits(body: bytes)
    ensures |body| < |Pad(body, BLOCK)| <= |body| + BLOCK && |Pad(body, BLOCK)| % BLOCK == 0
  {
  }

  /** What the encoder puts after the header, and the header it puts it after. */
  ghost function Body(c: Ciphers, mac: bytes, key: bytes, body: bytes, opts: Options, iv: bytes): bytes
    requires |body| <= MAX_ENCODED
  {
    if opts.gcm then c.seal(key, iv, body, Header(mac, RequestFlags(opts), iv, |body| + GCM_TAG))
    else c.cbcEncrypt(key, iv, Pad(body, BLOCK))
  }

  lemma DecryptInvertsEncrypt(c: Ciphers, mac: bytes, key: bytes, body: bytes, opts: Options, iv: bytes)
    requires CbcLawful(c) && GcmLawful(c)
    requires |key| == 16 && |iv| == 16 && |body| <= MAX_ENCODED - BLOCK
    ensures var wire := Body(c, mac, key, body, opts, iv);
            && 0 < |wire| <= MAX_ENCODED
            && (opts.gcm ==> GCM_TAG <= |wire| == |body| + GCM_TAG)
            && Decrypt(c, Packet(mac, RequestFlags(opts), iv, wire), key, Header(mac, RequestFlags(opts), iv, |wire|)) == Ok(body)
  {
    hide Header, Encrypted, Gcm, RequestFlags, Pad, Unpad;
    RequestFlagsRead(opts);
    if !opts.gcm {
      PadFits(body);
      UnpadInvertsPad(body, BLOCK);
      CbcKeepsLength(c, key, iv, Pad(body, BLOCK));
    }
  }

  /** What the encoder emits: the header of its own fields, then the sealed body. */
  lemma EncodedWire(c: Ciphers, mac: bytes, key: bytes, payload: bytes, opts: Options, random: Option<bytes>)
    requires CbcLawful(c) && GcmLawful(c)
    requires random.Some? ==> |random.value| == 16
    requires Encode(c, mac, key, payload, opts, random).Ok?
    ensures random.Some? && |mac| == 6 && |key| == 16 && |payload| <= MAX_DECODED
    ensures var body := if opts.zlib then c.compress(payload) else Some(payload);
            && body.Some? && |body.value| <= MAX_ENCODED - BLOCK
            && var wire := Body(c, mac, key, body.value, opts, random.value);
            Encode(c, mac, key, payload, opts, random).value == Header(mac, RequestFlags(opts), random.value, |wire|) + wire
  {
    hide Header, RequestFlags, Pad, CbcLawful, GcmLawful;
    var body := if opts.zlib then c.compress(payload) else Some(payload);
    if !opts.gcm {
      PadFits(body.value);
      CbcKeepsLength(c, key, random.value, Pad(body.value, BLOCK));
    } else {
      SealedLength(c, key, random.value, body.value, Header(mac, RequestFlags(opts), random.value, |body.value| + GCM_TAG));
    }
  }

  /** Decoding a packet of known parts. */
  lemma DecodeOfParts(c: Ciphers, mac: bytes, key: bytes, opts: Options, iv: bytes, wire: bytes, body: bytes, payload: bytes)
    requires |mac| == 6 && |iv| == 16 && |wire| <= MAX_ENCODED && |payload| <= MAX_DECODED
    requires opts.gcm ==> GCM_TAG <= |wire|
    requires Decrypt(c, Packet(mac, RequestFlags(opts), iv, wire), key, Header(mac, RequestFlags(opts), iv, |wire|)) == Ok(body)
    requires if opts.zlib then c.inflate(body) == Some(payload) else body == payload
    ensures Decode(c, Header(mac, RequestFlags(opts), iv, |wire|) + wire, key)
         == Ok(Decoded(Packet(mac, RequestFlags(opts), iv, wire), payload))
  {
    RequestFlagsRead(opts);
    HeaderParses(mac, RequestFlags(opts), iv, wire);
    hide Header, Encrypted, KnownFlags, Snappy, Zlib, Gcm, RequestFlags, ParseEnvelope, Decrypt;
  }

  /** Whatever the encoder emits, the decoder accepts, and gives back the same MAC, flags,
      nonce and payload: the limits of the two sides agree. */
  lemma DecodeInvertsEncode(c: Ciphers, mac: bytes, key: bytes, payload: bytes, opts: Options, random: Option<bytes>)
    requires CbcLawful(c) && GcmLawful(c) && ZlibLawful(c)
    requires random.Some? ==> |random.value| == 16
    requires Encode(c, mac, key, payload, opts, random).Ok?
    ensures var decoded := Decode(c, Encode(c, mac, key, payload, opts, random).value, key);
            && decoded.Ok?
            && decoded.value.body == payload
            && decoded.value.packet.mac == mac && decoded.value.packet.iv == random.value
            && decoded.value.packet.flags == RequestFlags(opts)
  {
    hide Encode, Decode, Body, Decrypt, Header, RequestFlags, CbcLawful, GcmLawful;
    EncodedWire(c, mac, key, payload, opts, random);
    var iv := random.value;
    var body := (if opts.zlib then c.compress(payload) else Some(payload)).value;
    var wire := Body(c, mac, key, body, opts, iv);
    DecryptInvertsEncrypt(c, mac, key, body, opts, iv);
    if opts.zlib { assert c.inflate(body) == Some(payload); }
    DecodeOfParts(c, mac, key, opts, iv, wire, body, payload);
  }

  /** The encoder refuses nothing it need not: without compression every payload within the
      plaintext limit is accepted, and under GCM a body is accepted exactly when its sealed
      form is within the limit the decoder reads. */
  lemma EncodeAcceptsIff(c: Ciphers, mac: bytes, key: bytes, payload: bytes, opts: Options, iv: bytes)
    requires CbcLawful(c) && GcmLawful(c) && |mac| == 6 && |key| == 16 && |iv| == 16
    ensures !opts.zlib ==> (Encode(c, mac, key, payload, opts, Some(iv)).Ok? <==> |payload| <= MAX_DECODED)
    ensures var body := if opts.zlib then c.compress(payload) else Some(payload);
            opts.gcm && |payload| <= MAX_DECODED && body.Some? && |body.value| <= MAX_ENCODED ==>
              (Encode(c, mac, key, payload, opts, Some(iv)).Ok? <==> |Body(c, mac, key, body.value, opts, iv)| <= MAX_ENCODED)
  {
    hide Header, Pad, RequestFlags;
    var body := if opts.zlib then c.compress(payload) else Some(payload);
    if body.Some? && |body.value| <= MAX_ENCODED - BLOCK && !opts.gcm {
      PadFits(body.value);
      CbcKeepsLength(c, key, iv, Pad(body.value, BLOCK));
    }
  }

  // ---- the wire format byte by byte ----

  /** A header at its offsets: the magic, the packet version, the MAC, the flags, the nonce, the
      payload version and the payload length, numbers big-endian. */
  lemma HeaderBytes(mac: bytes, flags: Flags, iv: bytes, length: int)
    requires |mac| == 6 && |iv| == 16 && 0 <= length < 0x1_0000_0000
    ensures var h := Header(mac, flags, iv, length);
            && |h| == 40
            && h[..4] == [0x54, 0x4E, 0x42, 0x55] && h[4..8] == [0, 0, 0, 0]
            && h[8..14] == mac && h[14] == flags / 256 && h[15] == flags % 256 && h[16..32] == iv
            && h[32..36] == [0, 0, 0, 1]
            && ((h[36] as int) * 256 + h[37]) * 65536 + ((h[38] as int) * 256 + h[39]) == length
  {
    var h := Header(mac, flags, iv, length);
    U32Reads(length);
    assert U32(0) == [0, 0, 0, 0] && U32(1) == [0, 0, 0, 1];
    HeaderParts(mac, flags, iv, length);
    hide Header, U32, Fit;
    assert h[36] == h[36..40][0] && h[37] == h[36..40][1] && h[38] == h[36..40][2] && h[39] == h[36..40][3];
    assert h[14] == h[14..16][0] && h[15] == h[14..16][1];
  }

  lemma HeaderParts(mac: bytes, flags: Flags, iv: bytes, length: int)
    requires |mac| == 6 && |iv| == 16 && 0 <= length < 0x1_0000_0000
    ensures var h := Header(mac, flags, iv, length);
            && h[..4] == MAGIC && h[4..8] == U32(0) && h[8..14] == mac && h[14..16] == U16(flags)
            && h[16..32] == iv && h[32..36] == U32(1) && h[36..40] == U32(length)
  {
    hide U32, U16;
  }

  /** The flags a packet carries. */
  function FlagsOf(data: bytes): int
    requires |data| >= 16
  {
    (data[14] as int) * 256 + data[15]
  }

  /** Header, magic, both versions, and a length field that is the number of bytes that follow. */
  ghost predicate Framed(data: bytes) {
    && |data| >= 40 && data[..4] == [0x54, 0x4E, 0x42, 0x55]
    && data[4..8] == [0, 0, 0, 0] && data[32..36] == [0, 0, 0, 1]
    && ((data[36] as int) * 256 + data[37]) * 65536 + ((data[38] as int) * 256 + data[39]) == |data| - 40
    && |data| - 40 <= 16 * 1024 * 1024 + 64 * 1024
  }

  lemma U32IsSmall(b: bytes)
    requires |b| == 4
    ensures ReadU32(b) == 0 <==> b == [0, 0, 0, 0]
    ensures ReadU32(b) == 1 <==> b == [0, 0, 0, 1]
  {
  }

  lemma EnvelopeIff(data: bytes)
    ensures ParseEnvelope(data).Ok? <==> Framed(data)
    ensures ParseEnvelope(data).Ok? ==> ParseEnvelope(data).value == Packet(data[8..14], FlagsOf(data), data[16..32], data[40..])
  {
    if |data| >= 40 {
      U32IsSmall(data[4..8]);
      U32IsSmall(data[32..36]);
      var b := data[36..40];
      assert b[0] == data[36] && b[1] == data[37] && b[2] == data[38] && b[3] == data[39];
      assert ReadU32(b) == ((data[36] as int) * 256 + data[37]) * 65536 + ((data[38] as int) * 256 + data[39]);
      assert ReadU16(data[14..16]) == FlagsOf(data);
      hide ReadU32, ReadU16;
    }
  }

  /** Exactly the framed packets whose flags say encrypted, know no bit above the fourth, and
      have room for the tag when they say GCM, are accepted. An unencrypted packet is refused as
      such, and one with an unknown flag as that. */
  lemma PacketAcceptedIff(data: bytes)
    ensures ParsePacket(data).Ok? <==>
              && Framed(data) && FlagsOf(data) in {1, 3, 5, 7, 9, 11, 13, 15}
              && (FlagsOf(data) >= 8 ==> |data| >= 56)
    ensures ParsePacket(data).Ok? ==> ParsePacket(data).value == Packet(data[8..14], FlagsOf(data), data[16..32], data[40..])
    ensures Framed(data) && FlagsOf(data) % 2 == 0 ==> ParsePacket(data) == Err(NotEncrypted)
    ensures Framed(data) && FlagsOf(data) % 2 == 1 && FlagsOf(data) >= 16 ==> ParsePacket(data) == Err(UnknownFlags)
    ensures Framed(data) && FlagsOf(data) in {9, 11, 13, 15} && |data| < 56 ==> ParsePacket(data) == Err(ShorterThanTag)
  {
    EnvelopeIff(data);
    assert Framed(data) ==> |data| >= 40;
    hide ParseEnvelope, Framed, FlagsOf;
    if ParseEnvelope(data).Ok? {
      FlagCases(ParseEnvelope(data).value.flags);
    }
  }

  lemma FlagCases(f: Flags)
    ensures f in {1, 3, 5, 7, 9, 11, 13, 15} <==> f % 2 == 1 && f < 16
    ensures f < 16 ==> (f / 8 % 2 == 1 <==> f >= 8)
  {
  }

  /** Why a packet is not framed: the first of its checks that fails. */
  lemma EnvelopeErrors(data: bytes)
    ensures |data| < 40 ==> ParsePacket(data) == Err(TooShort)
    ensures |data| >= 40 && data[..4] != [0x54, 0x4E, 0x42, 0x55] ==> ParsePacket(data) == Err(BadMagic)
    ensures |data| >= 40 && data[..4] == [0x54, 0x4E, 0x42, 0x55] && data[4..8] != [0, 0, 0, 0] ==>
              ParsePacket(data) == Err(BadPacketVersion)
    ensures |data| >= 40 && data[..4] == [0x54, 0x4E, 0x42, 0x55] && data[4..8] == [0, 0, 0, 0] && data[32..36] != [0, 0, 0, 1] ==>
              ParsePacket(data) == Err(BadPayloadVersion)
    ensures |data| >= 40 && !Framed(data)
            && data[..4] == [0x54, 0x4E, 0x42, 0x55] && data[4..8] == [0, 0, 0, 0] && data[32..36] == [0, 0, 0, 1] ==>
              ParsePacket(data) in {Err(TooLong), Err(LengthMismatch)}
  {
    EnvelopeIff(data);
    if |data| >= 40 {
      U32IsSmall(data[4..8]);
      U32IsSmall(data[32..36]);
    }
    hide ReadU32, ReadU16, Framed;
  }

  // ---- what decodes ----

  /** The plain text under the packet's cipher. */
  ghost predicate Deciphers(c: Ciphers, data: bytes, key: bytes, plain: bytes)
    requires |data| >= 40
  {
    && |key| == 16
    && if FlagsOf(data) / 8 % 2 == 1 then c.open(key, data[16..32], data[40..], data[..40]) == Some(plain)
       else |data| > 40 && (|data| - 40) % 16 == 0 && Pad(plain, 16) == c.cbcDecrypt(key, data[16..32], data[40..])
  }

  lemma DecryptsIff(c: Ciphers, data: bytes, key: bytes, plain: bytes)
    requires ParsePacket(data).Ok?
    ensures |data| >= 40
    ensures Decrypt(c, ParsePacket(data).value, key, data[..HEADER_BYTES]) == Ok(plain) <==> Deciphers(c, data, key, plain)
  {
    PacketAcceptedIff(data);
    UnpadAcceptsIff(c.cbcDecrypt(key, data[16..32], data[40..]), BLOCK);
    UnpadInvertsPad(plain, BLOCK);
    hide ParsePacket, Pad, Unpad, Framed;
  }

  /** A packet decodes to a payload exactly when it is accepted, is not Snappy, its body deciphers
      under the key, with the header authenticated under GCM and the padding whole under CBC, and
      what comes out, inflated when the packet says so, is the payload and within the limit. */
  lemma DecodesIff(c: Ciphers, data: bytes, key: bytes, payload: bytes)
    ensures (exists d :: Decode(c, data, key) == Ok(d) && d.body == payload) <==>
              && ParsePacket(data).Ok? && FlagsOf(data) / 4 % 2 == 0 && |payload| <= 16 * 1024 * 1024
              && exists plain :: Deciphers(c, data, key, plain)
                                 && if FlagsOf(data) / 2 % 2 == 1 then c.inflate(plain) == Some(payload) else plain == payload
  {
    PacketAcceptedIff(data);
    if ParsePacket(data).Ok? {
      var p := ParsePacket(data).value;
      var plain := Decrypt(c, p, key, data[..HEADER_BYTES]);
      forall text
        ensures plain == Ok(text) <==> Deciphers(c, data, key, text)
      {
        DecryptsIff(c, data, key, text);
      }
      hide ParsePacket, Decrypt, Deciphers, Framed;
      if plain.Ok? {
        assert Deciphers(c, data, key, plain.value);
        assert forall text :: Deciphers(c, data, key, text) ==> text == plain.value;
      }
      assert Decode(c, data, key).Ok? ==> exists d :: Decode(c, data, key) == Ok(d);
    }
  }

  // ---- what the encoder refuses ----

  /** The first thing wrong with what is to be encoded is what is reported. */
  lemma EncodeRefuses(c: Ciphers, mac: bytes, key: bytes, payload: bytes, opts: Options, random: Option<bytes>)
    requires CbcLawful(c) && (random.Some? ==> |random.value| == 16)
    ensures var body := if opts.zlib then c.compress(payload) else Some(payload);
            var r := Encode(c, mac, key, payload, opts, random);
            && (|mac| != 6 ==> r == Err(BadMAC))
            && (|mac| == 6 && |key| != 16 ==> r == Err(BadKey))
            && (|mac| == 6 && |key| == 16 && |payload| > 16 * 1024 * 1024 ==> r == Err(PlaintextTooLong))
            && (|mac| == 6 && |key| == 16 && |payload| <= 16 * 1024 * 1024 ==>
                  && (body.None? ==> r == Err(BadCompression))
                  && (body.Some? && |body.value| > 16 * 1024 * 1024 + 64 * 1024 - 16 ==> r == Err(BodyTooLong))
                  && (body.Some? && |body.value| <= 16 * 1024 * 1024 + 64 * 1024 - 16 && random.None? ==> r == Err(NoRandom))
                  && (body.Some? && |body.value| <= 16 * 1024 * 1024 + 64 * 1024 - 16 && random.Some? ==> r.Ok?))
  {
    hide Header, Pad, RequestFlags;
    var body := if opts.zlib then c.compress(payload) else Some(payload);
    if |key| == 16 && body.Some? && random.Some? {
      PadFits(body.value);
      CbcKeepsLength(c, key, random.value, Pad(body.value, BLOCK));
    }
  }
}
