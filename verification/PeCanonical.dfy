/** Canonical bytes of a Windows driver image: the bytes that remain when the checksum and the
    security directory entry are zeroed, the certificate table is removed and up to seven
    trailing NULs are dropped.  The layout is that of the Microsoft PE Format specification. */
module PeCanonical {
  import opened Bytes
  import opened Wrappers

  datatype PeError =
    | NotPe
    | InvalidHeader
    | TruncatedOptionalHeader
    | ShortMagic // struct.error: the file ends inside the magic
    | UnsupportedMagic
    | NoSecurityDirectory
    | InvalidCertificateTable
    | OffsetWithoutSize

  datatype Header = Header(
    peOffset: nat, machine: nat, optionalSize: nat, magic: nat, directories: nat,
    certificateOffset: nat, certificateSize: nat)
  {
    function Optional(): (n: nat) { peOffset + 24 }
    function ChecksumAt(): (n: nat) { Optional() + 64 }
    function SecurityAt(): (n: nat) { directories + 32 }
    function HeaderEnd(): (n: nat) { Optional() + optionalSize }
  }

  function U16(raw: seq<byte>, at: nat): (n: nat)
    requires at + 2 <= |raw|
    ensures n < 0x1_0000
  {
    var low: int, high: int := raw[at], raw[at + 1];
    low + 256 * high
  }

  function U32(raw: seq<byte>, at: nat): (n: nat)
    requires at + 4 <= |raw|
    ensures n < 0x1_0000_0000
  {
    U16(raw, at) + 0x1_0000 * U16(raw, at + 2)
  }

  function Parse(raw: seq<byte>): (r: Result<Header, PeError>) {
    if |raw| < 0x40 || raw[0] != 0x4D || raw[1] != 0x5A then Err(NotPe)
    else
      var pe := U32(raw, 0x3C);
      if pe + 24 > |raw| || raw[pe..pe + 4] != [0x50, 0x45, 0, 0] then Err(InvalidHeader)
      else
        var machine, size := U16(raw, pe + 4), U16(raw, pe + 20);
        if pe + 24 + size > |raw| then Err(TruncatedOptionalHeader)
        else if pe + 26 > |raw| then Err(ShortMagic)
        else
          var magic := U16(raw, pe + 24);
          if magic != 0x20B && magic != 0x10B then Err(UnsupportedMagic)
          else ParseDirectories(raw, pe, machine, size, magic)
  }

  function ParseDirectories(raw: seq<byte>, pe: nat, machine: nat, size: nat, magic: nat)
    : (r: Result<Header, PeError>)
    requires pe + 24 + size <= |raw|
  {
    var directories := pe + 24 + if magic == 0x20B then 112 else 96;
    if directories + 40 > pe + 24 + size then Err(NoSecurityDirectory)
    else
      var offset, length := U32(raw, directories + 32), U32(raw, directories + 36);
      if length != 0 && (offset == 0 || offset + length > |raw|) then Err(InvalidCertificateTable)
      else if length == 0 && offset != 0 then Err(OffsetWithoutSize)
      else Ok(Header(pe, machine, size, magic, directories, offset, length))
  }

  function Zeros(n: nat): (z: seq<byte>)
    ensures |z| == n && forall i | 0 <= i < n :: z[i] == 0
  {
    seq(n, _ => 0)
  }

  /** Slice assignment of equally many bytes. */
  function Put(s: seq<byte>, at: nat, bytes: seq<byte>): (r: seq<byte>)
    requires at + |bytes| <= |s|
    ensures |r| == |s|
    ensures forall i | 0 <= i < |s| :: r[i] == if at <= i < at + |bytes| then bytes[i - at] else s[i]
  {
    s[..at] + bytes + s[at + |bytes|..]
  }

  /** The bounds every parsed header keeps within a file of the given length. */
  predicate Within(h: Header, length: nat) {
    && h.HeaderEnd() <= length
    && h.ChecksumAt() + 4 <= h.SecurityAt() && h.SecurityAt() + 8 <= h.HeaderEnd()
    && h.certificateOffset + h.certificateSize <= length
    && (h.certificateSize == 0 ==> h.certificateOffset == 0)
    && h.directories == h.Optional() + (if h.magic == 0x20B then 112 else 96)
  }

  /** The image with checksum and security entry zeroed. */
  function Blanked(raw: seq<byte>, h: Header): (r: seq<byte>)
    requires Within(h, |raw|)
    ensures |r| == |raw|
  {
    Put(Put(raw, h.ChecksumAt(), Zeros(4)), h.SecurityAt(), Zeros(8))
  }

  /** The image without its certificate table. */
  function Payload(raw: seq<byte>, h: Header): (r: seq<byte>)
    requires Within(h, |raw|)
  {
    raw[..h.certificateOffset] + raw[h.certificateOffset + h.certificateSize..]
  }

  function TrailingZeros(s: seq<byte>): (k: nat)
    ensures k <= |s|
  {
    if s == [] || s[|s| - 1] != 0 then 0 else 1 + TrailingZeros(s[..|s| - 1])
  }

  function Min(a: nat, b: nat): (m: nat) { if a <= b then a else b }

  const MAX_PADDING := 7

  function Stripped(s: seq<byte>): (r: seq<byte>) {
    s[..|s| - Min(TrailingZeros(s), MAX_PADDING)]
  }

  lemma ParsedWithin(raw: seq<byte>)
    requires Parse(raw).Ok?
    ensures Within(Parse(raw).value, |raw|)
  {
  }

  function CanonicalFor(raw: seq<byte>, h: Header): (r: seq<byte>)
    requires Within(h, |raw|)
  {
    Stripped(Payload(Blanked(raw, h), h))
  }

  function Canonical(raw: seq<byte>): (r: seq<byte>)
    requires Parse(raw).Ok?
  {
    ParsedWithin(raw);
    CanonicalFor(raw, Parse(raw).value)
  }

  // ----- pe_identity

  datatype Identity = Identity(canonical: seq<byte>, header: Header)

  method PeIdentity(raw: seq<byte>) returns (r: Result<Identity, PeError>)
    ensures r == if Parse(raw).Ok? then Ok(Identity(Canonical(raw), Parse(raw).value))
                 else Err(Parse(raw).error)
  {
    var parsed := Parse(raw);
    if parsed.Err? {
      return Err(parsed.error);
    }
    ParsedWithin(raw);
    var canonical := Canonicalise(raw, parsed.value);
    return Ok(Identity(canonical, parsed.value));
  }

  /** The edits of the byte buffer: two slice assignments, one deletion, and the pop loop. */
  method Canonicalise(raw: seq<byte>, h: Header) returns (canonical: seq<byte>)
    requires Within(h, |raw|)
    ensures canonical == CanonicalFor(raw, h)
  {
    canonical := raw;
    canonical := Put(canonical, h.ChecksumAt(), Zeros(4));
    canonical := Put(canonical, h.SecurityAt(), Zeros(8));
    if h.certificateSize != 0 {
      canonical := canonical[..h.certificateOffset] + canonical[h.certificateOffset + h.certificateSize..];
    }
    ghost var body := canonical;
    assert body == Payload(Blanked(raw, h), h);
    canonical := StripPadding(canonical);
  }

  method StripPadding(body: seq<byte>) returns (canonical: seq<byte>)
    ensures canonical == Stripped(body)
  {
    canonical := body;
    var removed := 0;
    while canonical != [] && canonical[|canonical| - 1] == 0 && removed < 7
      invariant 0 <= removed <= 7 && removed <= |body|
      invariant canonical == body[..|body| - removed]
      invariant removed + TrailingZeros(canonical) == TrailingZeros(body)
    {
      canonical := canonical[..|canonical| - 1];
      removed := removed + 1;
    }
  }

  // ----- Stripping

  lemma {:induction false} TrailingZerosAppend(s: seq<byte>, p: nat)
    ensures TrailingZeros(s + Zeros(p)) == TrailingZeros(s) + p
  {
    if p == 0 {
      assert s + Zeros(0) == s;
    } else {
      TrailingZerosAppend(s, p - 1);
      assert s + Zeros(p) == (s + Zeros(p - 1)) + [0];
      OneMoreZero(s + Zeros(p - 1));
    }
  }

  lemma OneMoreZero(s: seq<byte>)
    ensures TrailingZeros(s + [0]) == TrailingZeros(s) + 1
  {
    assert (s + [0])[..|s|] == s;
  }

  lemma {:induction false} StrippedTail(s: seq<byte>, k: nat)
    requires k <= TrailingZeros(s)
    ensures s == s[..|s| - k] + Zeros(k)
  {
    if k == 0 {
    } else {
      StrippedTail(s[..|s| - 1], k - 1);
      assert s[..|s| - 1][..|s| - k] == s[..|s| - k];
      assert s == s[..|s| - 1] + [0];
      assert Zeros(k) == Zeros(k - 1) + [0];
    }
  }

  /** Padding is stripped without a trace exactly when the budget of seven NULs covers it
      together with the NULs the image already ends in. */
  lemma StripPaddingIff(s: seq<byte>, p: nat)
    ensures Stripped(s + Zeros(p)) == Stripped(s) <==> p == 0 || TrailingZeros(s) + p <= MAX_PADDING
  {
    var t, k := s + Zeros(p), TrailingZeros(s);
    TrailingZerosAppend(s, p);
    assert |Stripped(t)| == |s| + p - Min(k + p, 7);
    assert |Stripped(s)| == |s| - Min(k, 7);
    if p == 0 || k + p <= 7 {
      assert Stripped(t) == t[..|Stripped(s)|] == s[..|Stripped(s)|];
    }
  }

  // ----- Signing

  function LittleEndian(n: nat): (b: seq<byte>)
    requires n < 0x1_0000_0000
    ensures |b| == 4 && U32(b, 0) == n
  {
    var a := n / 256;
    var b := a / 256;
    [n % 256, a % 256, b % 256, b / 256]
  }

  /** The security entry filled in. */
  function WithEntry(image: seq<byte>, at: nat, offset: nat, size: nat): (r: seq<byte>)
    requires at + 8 <= |image| && offset < 0x1_0000_0000 && size < 0x1_0000_0000
    ensures |r| == |image|
  {
    Put(image, at, LittleEndian(offset) + LittleEndian(size))
  }

  /** What a signer does: fill in checksum and security entry, pad, append the table. */
  function Signed(image: seq<byte>, h: Header, checksum: seq<byte>, padding: nat, table: seq<byte>): (r: seq<byte>)
    requires Within(h, |image|) && |checksum| == 4
    requires |image| + padding + |table| < 0x1_0000_0000
    ensures |r| == |image| + padding + |table|
  {
    WithEntry(Put(image, h.ChecksumAt(), checksum), h.SecurityAt(), |image| + padding, |table|)
    + Zeros(padding) + table
  }

  function SignedHeader(h: Header, offset: nat, size: nat): (r: Header) {
    h.(certificateOffset := offset, certificateSize := size)
  }

  ghost predicate Unsigned(image: seq<byte>) {
    Parse(image).Ok? && Parse(image).value.certificateSize == 0
  }

  ghost predicate SigningInput(image: seq<byte>, checksum: seq<byte>, padding: nat, table: seq<byte>) {
    && Unsigned(image)
    && |checksum| == 4
    && padding <= MAX_PADDING
    && table != []
    && |image| + padding + |table| < 0x1_0000_0000
  }

  function SignedImage(image: seq<byte>, checksum: seq<byte>, padding: nat, table: seq<byte>): (r: seq<byte>)
    requires SigningInput(image, checksum, padding, table)
  {
    ParsedWithin(image);
    Signed(image, Parse(image).value, checksum, padding, table)
  }

  /** Parsing depends only on the bytes in front of the checksum, the security entry and the
      length of the file. */
  lemma ParseDependsOn(x: seq<byte>, y: seq<byte>)
    requires Parse(x).Ok?
    requires var h := Parse(x).value;
             && h.HeaderEnd() <= |y|
             && (forall i | 0 <= i < h.ChecksumAt() :: x[i] == y[i])
    ensures var h := Parse(x).value;
            Parse(y) == ParseDirectories(y, h.peOffset, h.machine, h.optionalSize, h.magic)
  {
    ParsedWithin(x);
    var h := Parse(x).value;
    assert x[h.peOffset..h.peOffset + 4] == y[h.peOffset..h.peOffset + 4];
  }

  lemma EntryReads(image: seq<byte>, at: nat, offset: nat, size: nat, more: seq<byte>)
    requires at + 8 <= |image| && offset < 0x1_0000_0000 && size < 0x1_0000_0000
    ensures var s := WithEntry(image, at, offset, size) + more;
            && U32(s, at) == offset && U32(s, at + 4) == size
            && forall i | 0 <= i < at :: s[i] == image[i]
  {
    var s, a, b := WithEntry(image, at, offset, size) + more, LittleEndian(offset), LittleEndian(size);
    assert forall i | 0 <= i < 4 :: s[at + i] == a[i] && s[at + 4 + i] == b[i];
    assert U32(s, at) == U32(a, 0);
    assert U32(s, at + 4) == U32(b, 0);
  }

  /** The signer changes nothing in front of the checksum and records the table it appends. */
  lemma SignedReads(image: seq<byte>, h: Header, checksum: seq<byte>, padding: nat, table: seq<byte>)
    requires Within(h, |image|) && |checksum| == 4
    requires |image| + padding + |table| < 0x1_0000_0000
    ensures var s := Signed(image, h, checksum, padding, table);
            && (forall i | 0 <= i < h.ChecksumAt() :: s[i] == image[i])
            && U32(s, h.SecurityAt()) == |image| + padding
            && U32(s, h.SecurityAt() + 4) == |table|
  {
    var patched := Put(image, h.ChecksumAt(), checksum);
    EntryReads(patched, h.SecurityAt(), |image| + padding, |table|, Zeros(padding) + table);
    var filled := WithEntry(patched, h.SecurityAt(), |image| + padding, |table|);
    assert filled + (Zeros(padding) + table) == filled + Zeros(padding) + table;
  }

  lemma DirectoriesRead(s: seq<byte>, h: Header, offset: nat, size: nat)
    requires h.HeaderEnd() <= |s| && h.SecurityAt() + 8 <= h.HeaderEnd()
    requires h.directories == h.Optional() + (if h.magic == 0x20B then 112 else 96)
    requires U32(s, h.SecurityAt()) == offset && U32(s, h.SecurityAt() + 4) == size
    requires 0 < offset && 0 < size && offset + size <= |s|
    ensures ParseDirectories(s, h.peOffset, h.machine, h.optionalSize, h.magic) ==
            Ok(SignedHeader(h, offset, size))
  {
  }

  lemma ParsesLike(x: seq<byte>, y: seq<byte>, h: Header, offset: nat, size: nat)
    requires Parse(x) == Ok(h) && Within(h, |x|) && |x| <= |y|
    requires forall i | 0 <= i < h.ChecksumAt() :: y[i] == x[i]
    requires U32(y, h.SecurityAt()) == offset && U32(y, h.SecurityAt() + 4) == size
    requires 0 < offset && 0 < size && offset + size <= |y|
    ensures Parse(y) == Ok(SignedHeader(h, offset, size))
  {
    ParseDependsOn(x, y);
    DirectoriesRead(y, h, offset, size);
  }

  /** A signed image is accepted and its header records the appended table. */
  lemma SignedParses(image: seq<byte>, checksum: seq<byte>, padding: nat, table: seq<byte>)
    requires SigningInput(image, checksum, padding, table)
    ensures Parse(SignedImage(image, checksum, padding, table)) ==
            Ok(SignedHeader(Parse(image).value, |image| + padding, |table|))
  {
    ParsedWithin(image);
    var h, s := Parse(image).value, SignedImage(image, checksum, padding, table);
    SignedReads(image, h, checksum, padding, table);
    ParsesLike(image, s, h, |image| + padding, |table|);
  }

  /** Blanking and removing the table leaves the blanked unsigned image and the padding. */
  lemma SignedBody(image: seq<byte>, h: Header, checksum: seq<byte>, padding: nat, table: seq<byte>)
    requires Within(h, |image|) && h.certificateSize == 0 && |checksum| == 4
    requires |image| + padding + |table| < 0x1_0000_0000
    ensures var s, g := Signed(image, h, checksum, padding, table), SignedHeader(h, |image| + padding, |table|);
            && (table != [] ==> Within(g, |s|) && Payload(Blanked(s, g), g) == Blanked(image, h) + Zeros(padding))
            && Payload(Blanked(image, h), h) == Blanked(image, h)
  {
    if table != [] {
      var s, g := Signed(image, h, checksum, padding, table), SignedHeader(h, |image| + padding, |table|);
      var patched := WithEntry(Put(image, h.ChecksumAt(), checksum), h.SecurityAt(), |image| + padding, |table|);
      assert Blanked(s, g)[..|image| + padding] == Blanked(image, h) + Zeros(padding) by {
        assert s[..|image|] == patched;
      }
    }
  }

  lemma SignedCanonical(image: seq<byte>, checksum: seq<byte>, padding: nat, table: seq<byte>)
    requires SigningInput(image, checksum, padding, table)
    ensures Within(Parse(image).value, |image|)
    ensures Parse(SignedImage(image, checksum, padding, table)).Ok?
    ensures var b := Blanked(image, Parse(image).value);
            && Canonical(SignedImage(image, checksum, padding, table)) == Stripped(b + Zeros(padding))
            && Canonical(image) == Stripped(b)
  {
    ParsedWithin(image);
    SignedParses(image, checksum, padding, table);
    SignedBody(image, Parse(image).value, checksum, padding, table);
  }

  /** Signing keeps the canonical bytes exactly when no padding was added or the padding and
      the NULs the blanked image ends in number at most seven together. */
  lemma SigningInvariantIff(image: seq<byte>, checksum: seq<byte>, padding: nat, table: seq<byte>)
    requires SigningInput(image, checksum, padding, table)
    ensures Within(Parse(image).value, |image|)
    ensures Parse(SignedImage(image, checksum, padding, table)).Ok?
    ensures Canonical(SignedImage(image, checksum, padding, table)) == Canonical(image) <==>
            padding == 0 || TrailingZeros(Blanked(image, Parse(image).value)) + padding <= MAX_PADDING
  {
    SignedCanonical(image, checksum, padding, table);
    StripPaddingIff(Blanked(image, Parse(image).value), padding);
  }

  /** Two signings of one image with the same padding always agree. */
  lemma SigningsAgree(image: seq<byte>, c1: seq<byte>, t1: seq<byte>, c2: seq<byte>, t2: seq<byte>, padding: nat)
    requires SigningInput(image, c1, padding, t1) && SigningInput(image, c2, padding, t2)
    ensures Parse(SignedImage(image, c1, padding, t1)).Ok? && Parse(SignedImage(image, c2, padding, t2)).Ok?
    ensures Canonical(SignedImage(image, c1, padding, t1)) == Canonical(SignedImage(image, c2, padding, t2))
  {
    SignedCanonical(image, c1, padding, t1);
    SignedCanonical(image, c2, padding, t2);
  }

  // ----- Images of NULs

  const X86_64 := 0x8664
  const PE32_PLUS := 0x20B
  const PE32 := 0x10B

  function EntryAt(pe: nat, magic: nat): (n: nat) {
    pe + 56 + if magic == PE32_PLUS then 112 else 96
  }

  /** An unsigned x86-64 image of NULs but for its headers. */
  function Plain(pe: nat, magic: nat, length: nat): (image: seq<byte>)
    requires 0x40 <= pe && pe + 176 <= length && pe < 0x1_0000_0000
    ensures |image| == length
  {
    var high: byte := if magic == PE32_PLUS then 2 else 1;
    var dos := Put(Put(Zeros(length), 0, [0x4D, 0x5A]), 0x3C, LittleEndian(pe));
    Put(Put(dos, pe, [0x50, 0x45, 0, 0, 0x64, 0x86]), pe + 20, [152, 0, 0, 0, 0x0B, high])
  }

  function PlainHeader(pe: nat, magic: nat): (h: Header) {
    Header(pe, X86_64, 152, magic, EntryAt(pe, magic) - 32, 0, 0)
  }

  lemma PlainBytes(pe: nat, magic: nat, length: nat, i: nat)
    requires 0x40 <= pe && pe + 176 <= length && pe < 0x1_0000_0000 && pe + 26 <= i < length
    ensures Plain(pe, magic, length)[i] == 0
  {
  }

  lemma PlainParses(pe: nat, magic: nat, length: nat)
    requires 0x40 <= pe && pe + 176 <= length && pe < 0x1_0000_0000
    requires magic == PE32_PLUS || magic == PE32
    ensures Parse(Plain(pe, magic, length)) == Ok(PlainHeader(pe, magic))
  {
    var image := Plain(pe, magic, length);
    assert image[0x3C..0x40] == LittleEndian(pe);
    assert U32(image, 0x3C) == U32(LittleEndian(pe), 0) == pe;
    assert image[pe..pe + 4] == [0x50, 0x45, 0, 0];
    assert U16(image, pe + 4) == X86_64 && U16(image, pe + 20) == 152 && U16(image, pe + 24) == magic;
    var at := EntryAt(pe, magic);
    assert U32(image, at) == 0 && U32(image, at + 4) == 0;
  }

  /** A minimal x86-64 image with an odd length, ending in NULs. */
  function OddImage(): (image: seq<byte>)
    ensures |image| == 329
  {
    Plain(0x40, PE32_PLUS, 329)
  }

  /** Seven bytes of padding after an image that ends in a NUL change its canonical bytes; the
      odd image above is such an image. */
  lemma PaddingShows(image: seq<byte>, checksum: seq<byte>, table: seq<byte>)
    requires SigningInput(image, checksum, 7, table) && image[|image| - 1] == 0
    ensures Parse(SignedImage(image, checksum, 7, table)).Ok?
    ensures Canonical(SignedImage(image, checksum, 7, table)) != Canonical(image)
  {
    SigningInvariantIff(image, checksum, 7, table);
    EndsInZero(image, Parse(image).value);
  }

  lemma EndsInZero(image: seq<byte>, h: Header)
    requires Within(h, |image|) && image[|image| - 1] == 0
    ensures TrailingZeros(Blanked(image, h)) >= 1
  {
    assert Blanked(image, h)[|image| - 1] == 0;
  }

  lemma OddImageParses()
    ensures Parse(OddImage()) == Ok(PlainHeader(0x40, PE32_PLUS))
    ensures OddImage()[|OddImage()| - 1] == 0
  {
    PlainParses(0x40, PE32_PLUS, 329);
    PlainBytes(0x40, PE32_PLUS, 329, 328);
  }

  // ----- What equal canonical bytes mean

  /** The certificate table does not start in front of the security entry. */
  ghost predicate TableFollowsEntry(h: Header) {
    h.certificateSize > 0 ==> h.certificateOffset >= h.SecurityAt()
  }

  predicate InFields(h: Header, i: nat) {
    h.ChecksumAt() <= i < h.ChecksumAt() + 4 || h.SecurityAt() <= i < h.SecurityAt() + 8
  }

  /** Outside the checksum and the security entry, two files agree on their common length, and
      what one has beyond it is at most seven NULs. */
  ghost predicate SameOutside(a: seq<byte>, b: seq<byte>, h: Header) {
    var n := Min(|a|, |b|);
    && |a| <= n + MAX_PADDING && |b| <= n + MAX_PADDING
    && (forall i | n <= i < |a| :: a[i] == 0 || InFields(h, i))
    && (forall i | n <= i < |b| :: b[i] == 0 || InFields(h, i))
    && (forall i | 0 <= i < n :: a[i] == b[i] || InFields(h, i))
  }

  /** The headers say the same but for the table, and the payloads are the same outside the two
      fields and trailing NULs. */
  ghost predicate SameImage(x: seq<byte>, y: seq<byte>) {
    && Parse(x).Ok? && Parse(y).Ok?
    && var h, g := Parse(x).value, Parse(y).value;
       && Within(h, |x|) && Within(g, |y|)
       && g == SignedHeader(h, g.certificateOffset, g.certificateSize)
       && SameOutside(Payload(x, h), Payload(y, g), h)
  }

  /** The blanked payload is the canonical form followed by at most seven NULs. */
  lemma CanonicalExtends(s: seq<byte>)
    ensures |Stripped(s)| <= |s| <= |Stripped(s)| + MAX_PADDING
    ensures forall i | 0 <= i < |s| :: s[i] == if i < |Stripped(s)| then Stripped(s)[i] else 0
  {
    StrippedTail(s, Min(TrailingZeros(s), MAX_PADDING));
  }

  /** The blanked payload is the payload outside the two fields, and the image in front of them. */
  lemma BodyFields(raw: seq<byte>, h: Header)
    requires Within(h, |raw|) && TableFollowsEntry(h)
    ensures var body := Payload(Blanked(raw, h), h);
            && |body| == |Payload(raw, h)| && h.SecurityAt() <= |body|
            && (forall i | 0 <= i < |body| :: body[i] == Payload(raw, h)[i] || InFields(h, i))
            && (forall i | 0 <= i < h.ChecksumAt() :: body[i] == raw[i])
  {
  }

  lemma SameStripped(a: seq<byte>, b: seq<byte>)
    requires Stripped(a) == Stripped(b)
    ensures var n := Min(|a|, |b|);
            && |a| <= n + MAX_PADDING && |b| <= n + MAX_PADDING
            && (forall i | 0 <= i < n :: a[i] == b[i])
            && (forall i | n <= i < |a| :: a[i] == 0)
            && (forall i | n <= i < |b| :: b[i] == 0)
  {
    CanonicalExtends(a);
    CanonicalExtends(b);
  }

  /** Headers are determined by the bytes in front of the checksum. */
  lemma HeadersAgree(x: seq<byte>, y: seq<byte>)
    requires Parse(x).Ok? && Parse(y).Ok?
    requires var h, g := Parse(x).value, Parse(y).value;
             && h.ChecksumAt() <= |x| && g.ChecksumAt() <= |y|
             && (forall i | 0 <= i < h.ChecksumAt() && i < g.ChecksumAt() :: x[i] == y[i])
    ensures var h, g := Parse(x).value, Parse(y).value;
            g == SignedHeader(h, g.certificateOffset, g.certificateSize)
  {
    ParsedWithin(x);
    ParsedWithin(y);
    var h, g := Parse(x).value, Parse(y).value;
    assert U32(x, 0x3C) == U32(y, 0x3C);
    assert h.peOffset == g.peOffset;
  }

  lemma BodiesAgree(x: seq<byte>, h: Header, y: seq<byte>, g: Header)
    requires Within(h, |x|) && Within(g, |y|) && TableFollowsEntry(h) && TableFollowsEntry(g)
    requires CanonicalFor(x, h) == CanonicalFor(y, g)
    ensures forall i | 0 <= i < h.ChecksumAt() && i < g.ChecksumAt() :: x[i] == y[i]
    ensures g == SignedHeader(h, g.certificateOffset, g.certificateSize) ==>
            SameOutside(Payload(x, h), Payload(y, g), h)
  {
    var a, b := Payload(Blanked(x, h), h), Payload(Blanked(y, g), g);
    SameStripped(a, b);
    BodyFields(x, h);
    BodyFields(y, g);
    forall i | 0 <= i < h.ChecksumAt() && i < g.ChecksumAt() ensures x[i] == y[i] {
      assert a[i] == b[i];
    }
    if g == SignedHeader(h, g.certificateOffset, g.certificateSize) {
      FieldsOutside(a, b, Payload(x, h), Payload(y, g), h);
    }
  }

  lemma FieldsOutside(a: seq<byte>, b: seq<byte>, p: seq<byte>, q: seq<byte>, h: Header)
    requires |a| == |p| && |b| == |q| && SameOutside(a, b, h)
    requires forall i | 0 <= i < |a| :: a[i] == p[i] || InFields(h, i)
    requires forall i | 0 <= i < |b| :: b[i] == q[i] || InFields(h, i)
    ensures SameOutside(p, q, h)
  {
  }

  /** Images with equal canonical bytes have the same header offset, machine, magic and optional
      header, and without their tables they differ only in checksum, security entry and at most
      seven trailing NULs, provided no table starts in front of its security entry. */
  lemma CanonicalSound(x: seq<byte>, y: seq<byte>)
    requires Parse(x).Ok? && Parse(y).Ok?
    requires TableFollowsEntry(Parse(x).value) && TableFollowsEntry(Parse(y).value)
    requires Canonical(x) == Canonical(y)
    ensures SameImage(x, y)
  {
    ParsedWithin(x);
    ParsedWithin(y);
    BodiesAgree(x, Parse(x).value, y, Parse(y).value);
    HeadersAgree(x, y);
  }
}
