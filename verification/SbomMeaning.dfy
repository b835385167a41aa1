/** What an accepted software bill of materials says, field by field and in its own words, against the
    checks that accept it. */
module SbomMeaning {
  import opened Wrappers
  import opened Bytes
  import opened KeyedLists
  import opened Spdx
  import Sorting

  // ----- Small parts

  /** The text occurs in the whole. */
  ghost predicate Occurs(part: string, whole: string) {
    exists before, after :: whole == before + part + after
  }

  lemma OccursIff(part: string, whole: string)
    ensures Infix(part, whole) <==> Occurs(part, whole)
  {
    if i :| 0 <= i <= |whole| && FoundAt(part, whole, i) {
      assert whole == whole[..i] + part + whole[i + |part|..];
    }
    if before, after :| whole == before + part + after {
      assert FoundAt(part, whole, |before|);
    }
  }

  /** The last checksum of the algorithm has this value. */
  ghost predicate Listed(checksums: seq<Checksum>, algorithm: string, value: string) {
    exists i | 0 <= i < |checksums| ::
      && checksums[i] == Checksum(algorithm, value)
      && forall j | i < j < |checksums| :: checksums[j].algorithm != algorithm
  }

  lemma {:induction false} ListedIff(checksums: seq<Checksum>, algorithm: string, value: string)
    ensures ChecksumOf(checksums, algorithm) == Some(value) <==> Listed(checksums, algorithm, value)
  {
    if checksums == [] {
    } else {
      var n := |checksums| - 1;
      var front, last := checksums[..n], checksums[n];
      ListedIff(front, algorithm, value);
      if last.algorithm == algorithm {
        if last.value == value { assert checksums[n] == Checksum(algorithm, value); }
      } else {
        if i :| 0 <= i < |front| && front[i] == Checksum(algorithm, value)
                && forall j | i < j < |front| :: front[j].algorithm != algorithm {
          assert checksums[i] == front[i];
          forall j | i < j < |checksums| ensures checksums[j].algorithm != algorithm {
            if j < n { assert front[j] == checksums[j]; }
          }
        }
        if i :| 0 <= i < |checksums| && checksums[i] == Checksum(algorithm, value)
                && forall j | i < j < |checksums| :: checksums[j].algorithm != algorithm {
          assert front[i] == checksums[i];
        }
      }
    }
  }

  /** The lock has one package of the workspace named greppy, of this version. */
  ghost predicate OwnVersion(lock: seq<LockEntry>, version: string) {
    exists i | 0 <= i < |lock| ::
      && lock[i].name == "greppy" && lock[i].source == None && lock[i].version == version
      && forall j | 0 <= j < |lock| && lock[j].name == "greppy" && lock[j].source == None :: j == i
  }

  lemma {:induction false} NoOwnVersion(lock: seq<LockEntry>)
    ensures OwnVersions(lock) == [] <==>
            forall j | 0 <= j < |lock| :: !(lock[j].name == "greppy" && lock[j].source == None)
  {
    if lock == [] {
    } else {
      NoOwnVersion(lock[1..]);
      if forall j | 0 <= j < |lock[1..]| :: !(lock[1..][j].name == "greppy" && lock[1..][j].source == None) {
        forall j | 1 <= j < |lock| ensures !(lock[j].name == "greppy" && lock[j].source == None) {
          assert lock[j] == lock[1..][j - 1];
        }
      }
    }
  }

  lemma {:induction false} OwnVersionIff(lock: seq<LockEntry>, version: string)
    ensures OwnVersions(lock) == [version] <==> OwnVersion(lock, version)
  {
    if lock == [] {
    } else {
      var rest := lock[1..];
      OwnVersionIff(rest, version);
      NoOwnVersion(rest);
      if lock[0].name == "greppy" && lock[0].source == None {
        FirstIsOwn(lock, version);
      } else {
        FirstIsOther(lock, version);
      }
    }
  }

  lemma FirstIsOwn(lock: seq<LockEntry>, version: string)
    requires lock != [] && lock[0].name == "greppy" && lock[0].source == None
    ensures OwnVersion(lock, version) <==>
            && lock[0].version == version
            && forall j | 0 <= j < |lock[1..]| :: !(lock[1..][j].name == "greppy" && lock[1..][j].source == None)
  {
    if forall j | 0 <= j < |lock[1..]| :: !(lock[1..][j].name == "greppy" && lock[1..][j].source == None) {
      forall j | 1 <= j < |lock| ensures !(lock[j].name == "greppy" && lock[j].source == None) {
        assert lock[j] == lock[1..][j - 1];
      }
    }
  }

  lemma FirstIsOther(lock: seq<LockEntry>, version: string)
    requires lock != [] && !(lock[0].name == "greppy" && lock[0].source == None)
    ensures OwnVersion(lock, version) <==> OwnVersion(lock[1..], version)
  {
    var rest := lock[1..];
    if i :| 0 <= i < |lock| && lock[i].name == "greppy" && lock[i].source == None && lock[i].version == version
            && forall j | 0 <= j < |lock| && lock[j].name == "greppy" && lock[j].source == None :: j == i {
      assert rest[i - 1] == lock[i];
    }
    if i :| 0 <= i < |rest| && rest[i].name == "greppy" && rest[i].source == None && rest[i].version == version
            && forall j | 0 <= j < |rest| && rest[j].name == "greppy" && rest[j].source == None :: j == i {
      assert lock[i + 1] == rest[i];
      forall j | 0 <= j < |lock| && lock[j].name == "greppy" && lock[j].source == None ensures j == i + 1 {
        assert rest[j - 1] == lock[j];
      }
    }
  }

  /** A checksum of the lock is 64 lower-case hexadecimal digits. */
  lemma ChecksumOkIff(p: LockEntry)
    ensures ChecksumOk(p) <==>
            p.checksum == None ||
            (|p.checksum.value| == 64 &&
             forall i | 0 <= i < 64 :: p.checksum.value[i] in "0123456789abcdef")
  {
    if p.checksum.Some? {
      var text := p.checksum.value;
      forall c: char ensures c in "0123456789abcdef" <==> '0' <= c <= '9' || 'a' <= c <= 'f' { HexDigit(c); }
      if |text| == 64 && forall i | 0 <= i < 64 :: text[i] in "0123456789abcdef" {
        forall c | c in text ensures '0' <= c <= '9' || 'a' <= c <= 'f' {
          var i :| 0 <= i < |text| && text[i] == c;
        }
      }
      if ChecksumOk(p) {
        forall i | 0 <= i < 64 ensures text[i] in "0123456789abcdef" { assert text[i] in text; }
      }
    }
  }

  lemma HexDigit(c: char)
    ensures c in "0123456789abcdef" <==> '0' <= c <= '9' || 'a' <= c <= 'f'
  {
    var digits := "0123456789abcdef";
    if '0' <= c <= '9' { assert digits[c as int - '0' as int] == c; }
    if 'a' <= c <= 'f' { assert digits[10 + (c as int - 'a' as int)] == c; }
  }

  /** The bytes a release file stands for: its own, or for a link the word symlink, a NUL and the target. */
  lemma ReleaseBytesMean(h: Settings, content: Content)
    ensures content.Regular? ==> ReleaseBytes(h, content) == content.bytes
    ensures content.Link? ==>
              var b := ReleaseBytes(h, content);
              && |b| == 8 + |h.encode(content.target)| && b[8..] == h.encode(content.target) && b[7] == 0
              && forall i | 0 <= i < 7 :: b[i] as int == "symlink"[i] as int
  {
  }

  // ----- Entries

  ghost predicate GoodHeader(h: Header) {
    && (h.version == "SPDX-2.2" || h.version == "SPDX-2.3")
    && h.id == "SPDXRef-DOCUMENT" && h.license == "CC0-1.0"
    && (exists rest :: h.namespace == "http://" + rest || h.namespace == "https://" + rest)
    && |h.creators| > 0
  }

  lemma GoodHeaderIff(h: Header)
    ensures HeaderOk(h) <==> GoodHeader(h)
  {
    if "https://" <= h.namespace { assert h.namespace == "https://" + h.namespace[8..]; }
    if "http://" <= h.namespace { assert h.namespace == "http://" + h.namespace[7..]; }
  }

  /** The code of clause 7.9 of SPDX 2.3: the digest of all file digests in ascending order, put together. */
  ghost predicate IsCode(h: Settings, dist: seq<DistFile>, code: string) {
    exists digests: seq<string> :: InOrder(h, dist, digests) && code == h.textSha1(Concat(digests))
  }

  function Digests(h: Settings, dist: seq<DistFile>): (digests: seq<string>) {
    seq(|dist|, i requires 0 <= i < |dist| => h.sha1(ReleaseBytes(h, dist[i].content)))
  }

  ghost predicate InOrder(h: Settings, dist: seq<DistFile>, digests: seq<string>) {
    && multiset(digests) == multiset(Digests(h, dist))
    && forall i, j | 0 <= i < j < |digests| :: Sorting.LexLe(digests[i], digests[j])
  }

  lemma IsCodeIff(h: Settings, dist: seq<DistFile>, code: string)
    ensures code == Code(h, dist) <==> IsCode(h, dist, code)
  {
    var all := Map(dist, Sha1Of(h));
    assert all == Digests(h, dist);
    var sorted := Sorting.Sort(Sorting.ByText(), all);
    Sorting.ByTextIsTotalOrder();
    Sorting.SortSorts(Sorting.ByText(), all);
    assert InOrder(h, dist, sorted) by {
      forall i, j | 0 <= i < j < |sorted| ensures Sorting.LexLe(sorted[i], sorted[j]) {
        assert Sorting.ByText()(sorted[i], sorted[j]);
      }
    }
    if digests: seq<string> :| InOrder(h, dist, digests) && code == h.textSha1(Concat(digests)) {
      Sorting.SortedUnique(Sorting.ByText(), digests, sorted);
    }
  }

  /** The package of the release: named greppy, of the workspace's version, its files analysed, with the
      code of the files and a comment that names the target and says what is not asserted. */
  ghost predicate GoodRoot(h: Settings, e: Package, dist: seq<DistFile>, lock: seq<LockEntry>, target: string) {
    && e.id == "SPDXRef-Package-greppy-release" && e.name == "greppy" && e.filesAnalyzed == true
    && OwnVersion(lock, e.version) && IsCode(h, dist, e.code)
    && Occurs(target, e.comment) && Occurs("do not assert", e.comment)
  }

  lemma GoodRootIff(h: Settings, e: Package, dist: seq<DistFile>, lock: seq<LockEntry>, target: string)
    ensures e.id == RELEASE && RootMatches(h, e, dist, lock, target) <==> GoodRoot(h, e, dist, lock, target)
  {
    OwnVersionIff(lock, e.version);
    IsCodeIff(h, dist, e.code);
    OccursIff(target, e.comment);
    OccursIff("do not assert", e.comment);
  }

  /** The entry of a release file: its name, both digests of its bytes, and the target if it is a link; a
      file that is none is not marked as one. */
  ghost predicate GoodFile(h: Settings, e: FileEntry, f: DistFile) {
    && e.id == "SPDXRef-ReleaseFile-" + h.fileDigits(f.relative) && e.fileName == "./" + f.relative
    && Listed(e.checksums, "SHA1", h.sha1(ReleaseBytes(h, f.content)))
    && Listed(e.checksums, "SHA256", h.sha256(ReleaseBytes(h, f.content)))
    && (f.content.Link? ==> e.fileTypes == ["OTHER"] && e.comment == "Symbolic link target: " + f.content.target)
    && (f.content.Regular? ==>
          e.fileTypes != ["OTHER"] || !exists rest :: e.comment == "Symbolic link target: " + rest)
  }

  lemma StartsIff(prefix: string, text: string)
    ensures prefix <= text <==> exists rest :: text == prefix + rest
  {
    if prefix <= text { assert text == prefix + text[|prefix|..]; }
  }

  lemma GoodFileIff(h: Settings, e: FileEntry, f: DistFile)
    ensures e.id == FileId(h, f.relative) && FileMatches(h, e, f) <==> GoodFile(h, e, f)
  {
    ListedIff(e.checksums, "SHA1", h.sha1(ReleaseBytes(h, f.content)));
    ListedIff(e.checksums, "SHA256", h.sha256(ReleaseBytes(h, f.content)));
    StartsIff("Symbolic link target: ", e.comment);
    assert LinkComment("") == "Symbolic link target: ";
  }

  /** The entry of a locked package: its name, version and source, and its checksum if the lock has one. */
  ghost predicate GoodPackage(h: Settings, e: Package, p: LockEntry) {
    var source := match p.source case Some(s) => s case None => "workspace";
    && e.id == "SPDXRef-CargoLock-" + h.packageDigits(p.name, p.version, source)
    && e.name == p.name && e.version == p.version && e.comment == "Cargo.lock source: " + source
    && (p.checksum.Some? ==> Listed(e.checksums, "SHA256", p.checksum.value))
  }

  lemma GoodPackageIff(h: Settings, e: Package, p: LockEntry)
    ensures e.id == CargoId(h, p) && PackageMatches(e, p) <==> GoodPackage(h, e, p)
  {
    if p.checksum.Some? { ListedIff(e.checksums, "SHA256", p.checksum.value); }
  }

  // ----- Documents

  /** Every package and file has an identifier of its own. */
  ghost predicate OwnIds(doc: Document) {
    && (forall e | e in doc.packages :: e.id != "") && (forall e | e in doc.files :: e.id != "")
    && (forall i, j | 0 <= i < j < |doc.packages| :: doc.packages[i].id != doc.packages[j].id)
    && (forall i, j | 0 <= i < j < |doc.files| :: doc.files[i].id != doc.files[j].id)
    && (forall e, f | e in doc.packages && f in doc.files :: e.id != f.id)
  }

  lemma OwnIdsIff(doc: Document)
    ensures GoodIds(Identifiers(doc)) <==> OwnIds(doc)
  {
    var ps, fs := Map(doc.packages, PackageKey()), Map(doc.files, FileKey());
    if GoodIds(ps + fs) { GoodIdsOwn(doc, ps, fs); }
    if OwnIds(doc) { OwnIdsGood(doc, ps, fs); }
  }

  lemma GoodIdsOwn(doc: Document, ps: seq<string>, fs: seq<string>)
    requires |ps| == |doc.packages| && |fs| == |doc.files| && GoodIds(ps + fs)
    requires forall i | 0 <= i < |ps| :: ps[i] == doc.packages[i].id
    requires forall i | 0 <= i < |fs| :: fs[i] == doc.files[i].id
    ensures OwnIds(doc)
  {
    var ids := ps + fs;
    forall i | 0 <= i < |ps| ensures ids[i] == doc.packages[i].id && ids[i] in ids {}
    forall i | 0 <= i < |fs| ensures ids[|ps| + i] == doc.files[i].id && ids[|ps| + i] in ids {}
    forall i, j | 0 <= i < j < |ps| ensures doc.packages[i].id != doc.packages[j].id { assert ids[i] != ids[j]; }
    forall i, j | 0 <= i < j < |fs| ensures doc.files[i].id != doc.files[j].id { assert ids[|ps| + i] != ids[|ps| + j]; }
    forall e, f | e in doc.packages && f in doc.files ensures e.id != f.id {
      var i :| 0 <= i < |ps| && doc.packages[i] == e;
      var j :| 0 <= j < |fs| && doc.files[j] == f;
      assert ids[i] != ids[|ps| + j];
    }
  }

  lemma OwnIdsGood(doc: Document, ps: seq<string>, fs: seq<string>)
    requires OwnIds(doc) && |ps| == |doc.packages| && |fs| == |doc.files|
    requires forall i | 0 <= i < |ps| :: ps[i] == doc.packages[i].id
    requires forall i | 0 <= i < |fs| :: fs[i] == doc.files[i].id
    ensures GoodIds(ps + fs)
  {
    var ids := ps + fs;
    forall i | 0 <= i < |ids| ensures ids[i] != "" {
      if i < |ps| { assert doc.packages[i] in doc.packages; } else { assert doc.files[i - |ps|] in doc.files; }
    }
    forall i, j | 0 <= i < j < |ids| ensures ids[i] != ids[j] {
      if i < |ps| <= j {
        assert doc.packages[i] in doc.packages && doc.files[j - |ps|] in doc.files;
      }
    }
  }

  /** The release has a relationship of the kind to the identifier. */
  ghost predicate ReleaseHas(doc: Document, kind: string, id: string) {
    exists i | 0 <= i < |doc.relationships| ::
      && doc.relationships[i].origin == "SPDXRef-Package-greppy-release"
      && doc.relationships[i].kind == kind && doc.relationships[i].related == id
  }

  lemma ReleaseHasIff(doc: Document, kind: string, id: string)
    ensures id in Related(doc.relationships, kind) <==> ReleaseHas(doc, kind, id)
  {
    if id in Related(doc.relationships, kind) {
      var r :| r in doc.relationships && r.origin == RELEASE && r.kind == kind && r.related == id;
      var i :| 0 <= i < |doc.relationships| && doc.relationships[i] == r;
    }
  }

  /** The document describes a good package of the release, which contains exactly the release's files,
      and every file and every locked package has a good entry, the latter related to the release. */
  ghost predicate Describes(h: Settings, doc: Document, dist: seq<DistFile>, lock: seq<LockEntry>, target: string) {
    && "SPDXRef-Package-greppy-release" in doc.describes
    && (exists e | e in doc.packages :: GoodRoot(h, e, dist, lock, target))
    && ContainsExactly(h, doc, dist)
    && (forall f | f in dist :: HasGoodFile(h, doc, f))
    && (forall p | p in lock :: HasGoodPackage(h, doc, p))
  }

  ghost predicate ContainsExactly(h: Settings, doc: Document, dist: seq<DistFile>) {
    forall id :: ReleaseHas(doc, "CONTAINS", id) <==>
      exists f | f in dist :: id == "SPDXRef-ReleaseFile-" + h.fileDigits(f.relative)
  }

  ghost predicate HasGoodFile(h: Settings, doc: Document, f: DistFile) {
    exists e | e in doc.files :: GoodFile(h, e, f)
  }

  ghost predicate HasGoodPackage(h: Settings, doc: Document, p: LockEntry) {
    exists e | e in doc.packages :: GoodPackage(h, e, p) && ReleaseHas(doc, "OTHER", e.id)
  }

  /** A document is accepted for a release exactly when its header is good, the release has files and the
      lock named packages with versions, every entry has an identifier of its own, and the document
      describes the release. */
  lemma AcceptedIff(h: Settings, doc: Document, dist: seq<DistFile>, lock: seq<LockEntry>, target: string)
    ensures Accepts(h, doc, dist, lock, target) <==>
            && GoodHeader(doc.header) && dist != []
            && lock != [] && (forall p | p in lock :: |p.name| > 0 && |p.version| > 0)
            && OwnIds(doc) && Describes(h, doc, dist, lock, target)
  {
    GoodHeaderIff(doc.header);
    OwnIdsIff(doc);
    DescribesIff(h, doc, dist, lock, target);
  }

  lemma DescribesIff(h: Settings, doc: Document, dist: seq<DistFile>, lock: seq<LockEntry>, target: string)
    ensures DescribesRelease(h, doc, dist, lock, target) <==> Describes(h, doc, dist, lock, target)
  {
    RootsIff(h, doc, dist, lock, target);
    ContainsIff(h, doc, dist);
    FilesIff(h, doc, dist);
    PackagesIff(h, doc, lock);
  }

  lemma RootsIff(h: Settings, doc: Document, dist: seq<DistFile>, lock: seq<LockEntry>, target: string)
    ensures HasRoot(h, doc.packages, dist, lock, target) <==>
            exists e | e in doc.packages :: GoodRoot(h, e, dist, lock, target)
  {
    forall e | e in doc.packages
      ensures e.id == RELEASE && RootMatches(h, e, dist, lock, target) <==> GoodRoot(h, e, dist, lock, target)
    {
      GoodRootIff(h, e, dist, lock, target);
    }
  }

  lemma ContainsIff(h: Settings, doc: Document, dist: seq<DistFile>)
    ensures Related(doc.relationships, "CONTAINS") == FileIds(h, dist) <==> ContainsExactly(h, doc, dist)
  {
    forall id ensures id in Related(doc.relationships, "CONTAINS") <==> ReleaseHas(doc, "CONTAINS", id) {
      ReleaseHasIff(doc, "CONTAINS", id);
    }
    forall id ensures id in FileIds(h, dist) <==>
                      exists f | f in dist :: id == "SPDXRef-ReleaseFile-" + h.fileDigits(f.relative) {
      if f :| f in dist && id == "SPDXRef-ReleaseFile-" + h.fileDigits(f.relative) {
        assert FileId(h, f.relative) in FileIds(h, dist);
      }
    }
  }

  lemma FilesIff(h: Settings, doc: Document, dist: seq<DistFile>)
    ensures (forall f | f in dist :: HasFile(h, doc.files, f)) <==>
            (forall f | f in dist :: HasGoodFile(h, doc, f))
  {
    forall f | f in dist ensures HasFile(h, doc.files, f) <==> HasGoodFile(h, doc, f) {
      forall e | e in doc.files ensures e.id == FileId(h, f.relative) && FileMatches(h, e, f) <==> GoodFile(h, e, f) {
        GoodFileIff(h, e, f);
      }
    }
  }

  lemma PackagesIff(h: Settings, doc: Document, lock: seq<LockEntry>)
    ensures (forall p | p in lock :: HasPackage(h, doc.packages, p))
            && CargoIds(h, lock) <= Related(doc.relationships, "OTHER") <==>
            forall p | p in lock :: HasGoodPackage(h, doc, p)
  {
    forall p | p in lock
      ensures HasPackage(h, doc.packages, p) && CargoId(h, p) in Related(doc.relationships, "OTHER") <==>
              HasGoodPackage(h, doc, p)
    {
      PackageIff(h, doc, p);
    }
    forall p | p in lock ensures CargoId(h, p) in CargoIds(h, lock) {}
  }

  lemma PackageIff(h: Settings, doc: Document, p: LockEntry)
    ensures HasPackage(h, doc.packages, p) && CargoId(h, p) in Related(doc.relationships, "OTHER") <==>
            HasGoodPackage(h, doc, p)
  {
    ReleaseHasIff(doc, "OTHER", CargoId(h, p));
    forall e | e in doc.packages ensures e.id == CargoId(h, p) && PackageMatches(e, p) <==> GoodPackage(h, e, p) {
      GoodPackageIff(h, e, p);
    }
    if e :| e in doc.packages && GoodPackage(h, e, p) && ReleaseHas(doc, "OTHER", e.id) {
      assert e.id == CargoId(h, p);
    }
  }

  /** Augmenting is refused exactly for a document, lock or release that could not be accepted, a lock
      without one own version, or a checksum that is none. */
  lemma CanAugmentIff(doc: Document, dist: seq<DistFile>, lock: seq<LockEntry>)
    ensures CanAugment(doc, dist, lock) <==>
            && GoodHeader(doc.header) && dist != []
            && lock != [] && (forall p | p in lock :: |p.name| > 0 && |p.version| > 0)
            && (exists version :: OwnVersion(lock, version))
            && forall p | p in lock && p.checksum.Some? ::
                 |p.checksum.value| == 64 && forall i | 0 <= i < 64 :: p.checksum.value[i] in "0123456789abcdef"
  {
    GoodHeaderIff(doc.header);
    forall p | p in lock
      ensures ChecksumOk(p) <==>
              p.checksum == None ||
              (|p.checksum.value| == 64 && forall i | 0 <= i < 64 :: p.checksum.value[i] in "0123456789abcdef")
    {
      ChecksumOkIff(p);
    }
    OneVersionIff(lock);
  }

  lemma OneVersionIff(lock: seq<LockEntry>)
    ensures |OwnVersions(lock)| == 1 <==> exists version :: OwnVersion(lock, version)
  {
    if |OwnVersions(lock)| == 1 {
      assert OwnVersions(lock) == [OwnVersions(lock)[0]];
      OwnVersionIff(lock, OwnVersions(lock)[0]);
    }
    if version :| OwnVersion(lock, version) { OwnVersionIff(lock, version); }
  }
}
