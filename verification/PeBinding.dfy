/** What the driver contract binds: an accepted pair of an unsigned build and a signed driver, with the
    certificate table cut out and in place. */
module PeBinding {
  import opened Bytes
  import opened Wrappers
  import opened PeCanonical

  // ----- The comparison in build_contract

  ghost predicate Injective<D(!new)>(hash: seq<byte> -> D) {
    forall a, b :: hash(a) == hash(b) ==> a == b
  }

  /** The checks on the two images; the other checks of the contract concern evidence files. */
  predicate ContractAccepts<D(==)>(hash: seq<byte> -> D, unsigned: seq<byte>, signed: seq<byte>) {
    && Parse(unsigned).Ok? && Parse(signed).Ok?
    && Parse(unsigned).value.machine == X86_64 && Parse(signed).value.machine == X86_64
    && Parse(unsigned).value.certificateSize == 0
    && Parse(signed).value.certificateSize != 0
    && hash(Canonical(unsigned)) == hash(Canonical(signed))
  }

  /** An accepted contract binds headers and payload of the signed driver to the unsigned build,
      provided the table of the signed driver does not start in front of its security entry. */
  lemma ContractBindsPayload<D(!new)>(hash: seq<byte> -> D, unsigned: seq<byte>, signed: seq<byte>)
    requires Injective(hash) && ContractAccepts(hash, unsigned, signed)
    requires TableFollowsEntry(Parse(signed).value)
    ensures SameImage(unsigned, signed)
    ensures Payload(unsigned, Parse(unsigned).value) == unsigned
  {
    assert Canonical(unsigned) == Canonical(signed);
    CanonicalSound(unsigned, signed);
    WholePayload(unsigned, Parse(unsigned).value);
  }

  lemma WholePayload(raw: seq<byte>, h: Header)
    requires Within(h, |raw|) && h.certificateSize == 0
    ensures Payload(raw, h) == raw
  {
  }

  /** A signing of an x86-64 build is accepted exactly when its padding leaves no trace; an
      image whose length is a multiple of eight, the usual file alignment, needs none. */
  lemma ContractAcceptsIff<D(!new)>(hash: seq<byte> -> D, image: seq<byte>, checksum: seq<byte>,
                                    padding: nat, table: seq<byte>)
    requires Injective(hash)
    requires SigningInput(image, checksum, padding, table) && Parse(image).value.machine == X86_64
    ensures Within(Parse(image).value, |image|)
    ensures ContractAccepts(hash, image, SignedImage(image, checksum, padding, table)) <==>
            padding == 0 || TrailingZeros(Blanked(image, Parse(image).value)) + padding <= MAX_PADDING
  {
    SignedParses(image, checksum, padding, table);
    SigningInvariantIff(image, checksum, padding, table);
  }

  // ----- Tables that start in front of the security entry

  lemma EntryParses(plain: seq<byte>, h: Header, offset: nat, size: nat, more: seq<byte>)
    requires Parse(plain) == Ok(h) && Within(h, |plain|)
    requires 0 < offset < 0x1_0000_0000 && 0 < size < 0x1_0000_0000 && offset + size <= |plain|
    ensures Parse(WithEntry(plain, h.SecurityAt(), offset, size) + more) == Ok(SignedHeader(h, offset, size))
  {
    EntryReads(plain, h.SecurityAt(), offset, size, more);
    ParsesLike(plain, WithEntry(plain, h.SecurityAt(), offset, size) + more, h, offset, size);
  }

  lemma BlankAlready(x: seq<byte>, h: Header)
    requires Within(h, |x|) && h.certificateSize == 0
    requires forall i | 0 <= i < |x| && InFields(h, i) :: x[i] == 0
    ensures Payload(Blanked(x, h), h) == x
  {
    assert Blanked(x, h) == x;
  }

  lemma HiddenPayload(front: seq<byte>, h: Header, offset: nat, x: seq<byte>)
    requires Within(h, |front|) && |front| == |x| < 0x1_0000_0000
    requires 0 < offset <= h.ChecksumAt() && x[..offset] == front[..offset]
    ensures var y := WithEntry(front, h.SecurityAt(), offset, |x| - offset) + x[offset..];
            var g := SignedHeader(h, offset, |x| - offset);
            Within(g, |y|) && Payload(Blanked(y, g), g) == x
  {
    var y := WithEntry(front, h.SecurityAt(), offset, |x| - offset) + x[offset..];
    var b := Blanked(y, SignedHeader(h, offset, |x| - offset));
    assert b[..offset] == front[..offset];
    assert b[|x|..] == x[offset..];
  }

  /** A table that covers the headers from `offset` to their end hides them: the payload shows
      those of any image that agrees in front of `offset`. */
  lemma HiddenHeaders(front: seq<byte>, h: Header, offset: nat, size: nat, x: seq<byte>)
    returns (y: seq<byte>, g: Header)
    requires Parse(front) == Ok(h) && Within(h, |front|) && |front| == |x| == offset + size < 0x1_0000_0000
    requires 0 < offset <= h.ChecksumAt() && front[..offset] == x[..offset]
    ensures Parse(y) == Ok(g) && Canonical(y) == Stripped(x)
    ensures g.peOffset == h.peOffset && g.machine == h.machine && g.magic == h.magic
    ensures g.certificateOffset == offset && g.certificateSize == size
  {
    y, g := WithEntry(front, h.SecurityAt(), offset, size) + x[offset..], SignedHeader(h, offset, size);
    EntryParses(front, h, offset, size, x[offset..]);
    HiddenPayload(front, h, offset, x);
  }

  lemma ShiftedPayload(long: seq<byte>, x: seq<byte>, h: Header, k: nat, offset: nat)
    requires Within(h, |x|) && h.certificateSize == 0 && |long| == |x| + 5 < 0x1_0000_0000
    requires k <= offset < h.SecurityAt() && k <= h.ChecksumAt()
    requires forall i | 0 <= i < k :: long[i] == x[i]
    requires forall i | k <= i < |x| :: x[i] == 0
    requires forall i | k <= i < |long| :: long[i] == 0
    ensures var y, g := WithEntry(long, h.SecurityAt(), offset, 5), SignedHeader(h, offset, 5);
            Within(g, |y|) && Payload(Blanked(y, g), g) == x
  {
    var y, g := WithEntry(long, h.SecurityAt(), offset, 5), SignedHeader(h, offset, 5);
    assert Blanked(y, g) == long;
    assert long[..offset] + long[offset + 5..] == x;
  }

  lemma FirstByte(n: nat)
    requires n < 256
    ensures LittleEndian(n)[0] == n
  {
  }

  lemma EntryMoves(long: seq<byte>, x: seq<byte>, h: Header, offset: nat)
    requires Within(h, |x|) && h.certificateSize == 0 && |long| == |x| + 5 < 0x1_0000_0000
    requires offset < h.SecurityAt() && x[h.SecurityAt() - 1] == 0
    ensures var y, g := WithEntry(long, h.SecurityAt(), offset, 5), SignedHeader(h, offset, 5);
            Within(g, |y|) && !SameOutside(Payload(x, h), Payload(y, g), h)
  {
    var y, g := WithEntry(long, h.SecurityAt(), offset, 5), SignedHeader(h, offset, 5);
    var at := h.SecurityAt() - 1;
    EntrySize(long, h.SecurityAt(), offset);
    Differ(Payload(x, h), Payload(y, g), h, at);
  }

  lemma EntrySize(image: seq<byte>, at: nat, offset: nat)
    requires at + 8 <= |image| && offset < 0x1_0000_0000
    ensures WithEntry(image, at, offset, 5)[at + 4] == 5
  {
    FirstByte(5);
    assert (LittleEndian(offset) + LittleEndian(5))[4] == LittleEndian(5)[0];
  }

  lemma Differ(a: seq<byte>, b: seq<byte>, h: Header, i: nat)
    requires i < |a| && i < |b| && a[i] != b[i] && !InFields(h, i)
    ensures !SameOutside(a, b, h)
  {
  }

  /** Five NULs declared as a table between the magic and the entry move the size of that table,
      which stands in the entry, to a byte of the payload that is not blanked. */
  lemma ShiftedEntry(long: seq<byte>, x: seq<byte>, h: Header, k: nat, offset: nat) returns (y: seq<byte>)
    requires Parse(long) == Ok(h) && Within(h, |x|) && h.certificateSize == 0 && |long| == |x| + 5 < 0x1_0000_0000
    requires 0 < k <= offset < h.SecurityAt() && k <= h.ChecksumAt()
    requires forall i | 0 <= i < k :: long[i] == x[i]
    requires forall i | k <= i < |x| :: x[i] == 0
    requires forall i | k <= i < |long| :: long[i] == 0
    ensures var g := SignedHeader(h, offset, 5);
            && Parse(y) == Ok(g) && Within(g, |y|) && Canonical(y) == Stripped(x)
            && !SameOutside(Payload(x, h), Payload(y, g), h)
  {
    EntryParses(long, h, offset, 5, []);
    y := WithEntry(long, h.SecurityAt(), offset, 5);
    assert y + [] == y;
    ShiftedPayload(long, x, h, k, offset);
    EntryMoves(long, x, h, offset);
  }

  function Other(magic: nat): (m: nat) {
    if magic == PE32_PLUS then PE32 else PE32_PLUS
  }

  lemma PlainImage(pe: nat, magic: nat, length: nat) returns (x: seq<byte>, h: Header)
    requires 0x40 <= pe && pe + 176 <= length && pe < 0x1_0000_0000
    requires magic == PE32_PLUS || magic == PE32
    ensures x == Plain(pe, magic, length) && Parse(x) == Ok(h) && Within(h, |x|)
    ensures h.peOffset == pe && h.magic == magic && h.machine == X86_64 && h.certificateSize == 0
    ensures Canonical(x) == Stripped(x)
    ensures forall i | pe + 26 <= i < |x| :: x[i] == 0
  {
    x, h := Plain(pe, magic, length), PlainHeader(pe, magic);
    PlainParses(pe, magic, length);
    forall i | pe + 26 <= i < |x| ensures x[i] == 0 { PlainBytes(pe, magic, length, i); }
    BlankAlready(x, h);
  }

  lemma PlainFronts(pe: nat, magic: nat, m: nat, length: nat, l: nat, i: nat)
    requires 0x40 <= pe && pe + 176 <= length && pe + 176 <= l && pe < 0x1_0000_0000
    requires i < pe + 25 || (i < pe + 26 && m == magic)
    ensures Plain(pe, magic, length)[i] == Plain(pe, m, l)[i]
  {
  }

  lemma FrontsAgree(pe: nat, magic: nat, m: nat, length: nat, offset: nat)
    requires 0x40 <= pe && pe + 176 <= length && pe < 0x1_0000_0000 && offset < pe + 26
    ensures Plain(pe, magic, length)[..offset] == Plain(pe, m, length)[..offset]
  {
    forall i | 0 <= i < offset ensures Plain(pe, magic, length)[i] == Plain(pe, m, length)[i] {
      PlainFronts(pe, magic, m, length, length, i);
    }
  }

  lemma HidingPair(pe: nat, magic: nat, offset: nat) returns (u: seq<byte>, s: seq<byte>, h: Header, g: Header)
    requires 0x40 <= pe && pe + 181 < 0x1_0000_0000 && 0 < offset < pe + 26
    requires magic == PE32_PLUS || magic == PE32
    ensures Parse(u) == Ok(h) && Parse(s) == Ok(g) && Canonical(u) == Canonical(s)
    ensures h.machine == g.machine == X86_64 && h.certificateSize == 0 && g.certificateSize > 0
    ensures g.peOffset == pe && g.magic == magic && g.certificateOffset == offset && h.magic != magic
  {
    var front, f;
    front, f, u, h := TwoFronts(pe, magic, offset);
    s, g := HiddenHeaders(front, f, offset, pe + 176 - offset, u);
  }

  lemma TwoFronts(pe: nat, magic: nat, offset: nat)
    returns (front: seq<byte>, f: Header, u: seq<byte>, h: Header)
    requires 0x40 <= pe && pe + 181 < 0x1_0000_0000 && 0 < offset < pe + 26
    requires magic == PE32_PLUS || magic == PE32
    ensures Parse(front) == Ok(f) && Within(f, |front|)
    ensures f.peOffset == pe && f.magic == magic && f.machine == X86_64
    ensures Parse(u) == Ok(h) && Canonical(u) == Stripped(u)
    ensures h.magic != magic && h.machine == X86_64 && h.certificateSize == 0
    ensures |front| == |u| == pe + 176 && front[..offset] == u[..offset]
  {
    u, h := PlainImage(pe, Other(magic), pe + 176);
    front, f := PlainImage(pe, magic, pe + 176);
    FrontsAgree(pe, magic, Other(magic), pe + 176, offset);
  }

  lemma ShiftingPair(pe: nat, magic: nat, offset: nat) returns (u: seq<byte>, s: seq<byte>, h: Header, g: Header)
    requires 0x40 <= pe && pe + 181 < 0x1_0000_0000 && pe + 26 <= offset < EntryAt(pe, magic)
    requires magic == PE32_PLUS || magic == PE32
    ensures Parse(u) == Ok(h) && Parse(s) == Ok(g) && Canonical(u) == Canonical(s)
    ensures h.machine == g.machine == X86_64 && h.certificateSize == 0 && g.certificateSize > 0
    ensures g.peOffset == pe && g.magic == magic && g.certificateOffset == offset
    ensures Within(h, |u|) && Within(g, |s|) && !SameOutside(Payload(u, h), Payload(s, g), h)
  {
    var long, f;
    u, h := PlainImage(pe, magic, pe + 176);
    long, f := PlainImage(pe, magic, pe + 181);
    forall i | 0 <= i < pe + 26 ensures long[i] == u[i] { PlainFronts(pe, magic, magic, pe + 181, pe + 176, i); }
    PlainParses(pe, magic, pe + 176);
    PlainParses(pe, magic, pe + 181);
    g := SignedHeader(h, offset, 5);
    s := ShiftedEntry(long, u, h, pe + 26, offset);
  }

  /** What the contract promises for signed drivers with this header offset and magic whose table
      starts at `offset`. */
  ghost predicate BindsAt<D(!new)>(hash: seq<byte> -> D, pe: nat, magic: nat, offset: nat) {
    forall u, s | ContractAccepts(hash, u, s)
                  && Parse(s).value.peOffset == pe && Parse(s).value.magic == magic
                  && Parse(s).value.certificateOffset == offset :: SameImage(u, s)
  }

  /** The contract binds signed drivers whose table starts at `offset` if and only if that is not
      in front of the security entry. */
  lemma ContractBindsIff<D(!new)>(hash: seq<byte> -> D, pe: nat, magic: nat, offset: nat)
    requires Injective(hash) && 0x40 <= pe && pe + 181 < 0x1_0000_0000 && 0 < offset
    requires magic == PE32_PLUS || magic == PE32
    ensures BindsAt(hash, pe, magic, offset) <==> offset >= EntryAt(pe, magic)
  {
    if offset >= EntryAt(pe, magic) {
      forall u, s | ContractAccepts(hash, u, s)
                    && Parse(s).value.peOffset == pe && Parse(s).value.magic == magic
                    && Parse(s).value.certificateOffset == offset
        ensures SameImage(u, s)
      {
        ParsedWithin(s);
        ContractBindsPayload(hash, u, s);
      }
    } else if offset < pe + 26 {
      var u, s, h, g := HidingPair(pe, magic, offset);
      assert ContractAccepts(hash, u, s) && !SameImage(u, s);
    } else {
      var u, s, h, g := ShiftingPair(pe, magic, offset);
      assert ContractAccepts(hash, u, s) && !SameImage(u, s);
    }
  }

  // ----- Tables behind the security entry

  function Insert(x: seq<byte>, at: nat, t: seq<byte>): (r: seq<byte>)
    requires at <= |x|
    ensures |r| == |x| + |t|
  {
    x[..at] + t + x[at..]
  }

  lemma PutInsert(x: seq<byte>, at: nat, bytes: seq<byte>, offset: nat, t: seq<byte>)
    requires at + |bytes| <= offset <= |x|
    ensures Put(Insert(x, offset, t), at, bytes) == Insert(Put(x, at, bytes), offset, t)
  {
  }

  lemma PutOver(x: seq<byte>, at: nat, first: seq<byte>, aside: nat, bytes: seq<byte>, second: seq<byte>)
    requires |first| == |second| && at + |first| <= |x| && aside + |bytes| <= |x|
    ensures Put(Put(Put(x, at, first), aside, bytes), at, second) == Put(Put(x, aside, bytes), at, second)
  {
  }

  lemma CutInserted(x: seq<byte>, offset: nat, t: seq<byte>)
    requires offset <= |x|
    ensures Insert(x, offset, t)[..offset] + Insert(x, offset, t)[offset + |t|..] == x
  {
    assert Insert(x, offset, t)[offset + |t|..] == x[offset..];
  }

  /** The file with t inserted at `offset` and declared as its table. */
  function Inserted(u: seq<byte>, h: Header, offset: nat, t: seq<byte>): (s: seq<byte>)
    requires Within(h, |u|) && h.SecurityAt() + 8 <= offset <= |u| && offset < 0x1_0000_0000 && |t| < 0x1_0000_0000
    ensures |s| == |u| + |t|
  {
    WithEntry(Insert(u, offset, t), h.SecurityAt(), offset, |t|)
  }

  /** In front of the table nothing moves but the entry, and behind it everything does. */
  lemma InsertedBytes(u: seq<byte>, h: Header, offset: nat, t: seq<byte>, i: nat)
    requires Within(h, |u|) && h.SecurityAt() + 8 <= offset <= |u| && offset < 0x1_0000_0000 && |t| < 0x1_0000_0000
    requires i < |u| + |t| && !(h.SecurityAt() <= i < h.SecurityAt() + 8)
    ensures Inserted(u, h, offset, t)[i] ==
            if i < offset then u[i] else if i < offset + |t| then t[i - offset] else u[i - |t|]
  {
  }

  lemma InsertedParses(u: seq<byte>, h: Header, offset: nat, t: seq<byte>)
    requires Parse(u) == Ok(h) && Within(h, |u|) && h.SecurityAt() + 8 <= offset <= |u| && t != []
    requires offset < 0x1_0000_0000 && |t| < 0x1_0000_0000
    ensures Parse(Inserted(u, h, offset, t)) == Ok(SignedHeader(h, offset, |t|))
  {
    var w, s := Insert(u, offset, t), Inserted(u, h, offset, t);
    EntryReads(w, h.SecurityAt(), offset, |t|, []);
    assert s + [] == s;
    forall i | 0 <= i < h.ChecksumAt() ensures s[i] == u[i] { InsertedBytes(u, h, offset, t, i); }
    ParsesLike(u, s, h, offset, |t|);
  }

  lemma InsertedBlanked(u: seq<byte>, h: Header, offset: nat, t: seq<byte>)
    requires Within(h, |u|) && h.SecurityAt() + 8 <= offset <= |u| && t != []
    requires offset < 0x1_0000_0000 && |t| < 0x1_0000_0000
    ensures var s, g := Inserted(u, h, offset, t), SignedHeader(h, offset, |t|);
            Within(g, |s|) && Blanked(s, g) == Insert(Blanked(u, h), offset, t)
  {
    var entry, at, aside := LittleEndian(offset) + LittleEndian(|t|), h.SecurityAt(), h.ChecksumAt();
    var filled := Put(u, at, entry);
    PutInsert(u, at, entry, offset, t);
    PutInsert(filled, aside, Zeros(4), offset, t);
    PutInsert(Put(filled, aside, Zeros(4)), at, Zeros(8), offset, t);
    PutOver(u, at, entry, aside, Zeros(4), Zeros(8));
  }

  lemma InsertedPayload(u: seq<byte>, h: Header, offset: nat, t: seq<byte>)
    requires Within(h, |u|) && h.SecurityAt() + 8 <= offset <= |u| && t != []
    requires offset < 0x1_0000_0000 && |t| < 0x1_0000_0000
    ensures var s, g := Inserted(u, h, offset, t), SignedHeader(h, offset, |t|);
            Within(g, |s|) && Payload(Blanked(s, g), g) == Blanked(u, h)
  {
    InsertedBlanked(u, h, offset, t);
    CutInserted(Blanked(u, h), offset, t);
  }

  /** Any bytes inserted anywhere behind the security entry and declared as the table leave the
      contract accepted, with the table behind the entry. */
  lemma InsertedTableAccepted<D(!new)>(hash: seq<byte> -> D, u: seq<byte>, h: Header, offset: nat, t: seq<byte>)
    requires Parse(u) == Ok(h) && h.machine == X86_64 && h.certificateSize == 0 && Within(h, |u|)
    requires h.SecurityAt() + 8 <= offset <= |u| && t != [] && offset < 0x1_0000_0000 && |t| < 0x1_0000_0000
    ensures ContractAccepts(hash, u, Inserted(u, h, offset, t))
    ensures Parse(Inserted(u, h, offset, t)) == Ok(SignedHeader(h, offset, |t|))
    ensures TableFollowsEntry(SignedHeader(h, offset, |t|))
    ensures Inserted(u, h, offset, t)[offset] == t[0]
  {
    InsertedParses(u, h, offset, t);
    InsertedPayload(u, h, offset, t);
    WholePayload(Blanked(u, h), h);
    InsertedBytes(u, h, offset, t, offset);
  }

  // ----- Drivers in place

  /** The signed file holds the build where the build is: at every offset below its length, outside
      the checksum and the security entry. */
  ghost predicate InPlace(u: seq<byte>, s: seq<byte>, h: Header) {
    |u| <= |s| && forall i | 0 <= i < |u| && !InFields(h, i) :: s[i] == u[i]
  }

  /** What holds of all accepted signed drivers of one build whose table starts at `offset`. */
  ghost predicate InPlaceAt<D(!new)>(hash: seq<byte> -> D, u: seq<byte>, h: Header, offset: nat) {
    forall s | ContractAccepts(hash, u, s) && Parse(s).value.certificateOffset == offset :: InPlace(u, s, h)
  }

  /** With the table behind the build, equal canonical bytes are equal bytes in place. */
  lemma LateBodies(u: seq<byte>, h: Header, s: seq<byte>, g: Header)
    requires Within(h, |u|) && Within(g, |s|) && h.certificateSize == 0 && g.certificateOffset >= |u|
    requires CanonicalFor(u, h) == CanonicalFor(s, g)
    ensures |u| <= |s| && forall i | 0 <= i < |u| :: Blanked(u, h)[i] == Blanked(s, g)[i]
  {
    var a, b, c := Blanked(u, h), Blanked(s, g), Payload(Blanked(s, g), g);
    WholePayload(a, h);
    SameStripped(a, c);
    forall i | 0 <= i < |u| ensures a[i] == b[i] { assert a[i] == c[i] && c[i] == b[i]; }
  }

  lemma BlankedFront(raw: seq<byte>, h: Header, i: nat)
    requires Within(h, |raw|) && i < |raw| && (i < h.ChecksumAt() || !InFields(h, i))
    ensures Blanked(raw, h)[i] == raw[i]
  {
  }

  lemma LateTableInPlace(u: seq<byte>, h: Header, s: seq<byte>, g: Header)
    requires Parse(u) == Ok(h) && Parse(s) == Ok(g) && Canonical(u) == Canonical(s)
    requires h.certificateSize == 0 && g.certificateOffset >= |u|
    ensures InPlace(u, s, h)
  {
    ParsedWithin(u);
    ParsedWithin(s);
    LateBodies(u, h, s, g);
    forall i | 0 <= i < h.ChecksumAt() && i < g.ChecksumAt() ensures u[i] == s[i] {
      BlankedFront(u, h, i);
      BlankedFront(s, g, i);
    }
    HeadersAgree(u, s);
    forall i | 0 <= i < |u| && !InFields(h, i) ensures s[i] == u[i] {
      BlankedFront(u, h, i);
      BlankedFront(s, g, i);
    }
  }

  /** For every x86-64 build and every table offset behind its security entry: all accepted signed
      drivers with the table there hold the build in place if and only if the table starts at or past
      the end of the build. */
  lemma InPlaceIff<D(!new)>(hash: seq<byte> -> D, u: seq<byte>, h: Header, offset: nat)
    requires Injective(hash) && Parse(u) == Ok(h) && h.machine == X86_64 && h.certificateSize == 0
    requires h.SecurityAt() + 8 <= offset < 0x1_0000_0000
    ensures InPlaceAt(hash, u, h, offset) <==> offset >= |u|
  {
    ParsedWithin(u);
    if offset >= |u| {
      forall s | ContractAccepts(hash, u, s) && Parse(s).value.certificateOffset == offset
        ensures InPlace(u, s, h)
      {
        assert Canonical(u) == Canonical(s);
        LateTableInPlace(u, h, s, Parse(s).value);
      }
    } else {
      var t: seq<byte> := [if u[offset] == 0 then 1 else 0];
      var s := Inserted(u, h, offset, t);
      InsertedTableAccepted(hash, u, h, offset, t);
      assert s[offset] != u[offset] && !InFields(h, offset);
    }
  }
}
