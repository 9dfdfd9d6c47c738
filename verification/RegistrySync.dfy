/** Fetching a closure, materializing it, and the sync and install commands. */
module RegistrySync {
  import opened Text
  import opened Sequences
  import opened Packages
  import opened Lockfiles
  import opened Store
  import opened Closure
  import opened Recovery
  import Sorting

  /** One package of a resolved closure. */
  datatype Resolved = Resolved(name: string, version: string, tag: string, digest: string,
                               files: seq<FileEntry>, direct: bool, dependencies: seq<string>)
  {
    /** A version is a single document exactly when its one document file carries the version digest. */
    function Format(): Format {
      if |files| == 1 && files[0].kind == DocumentFile && files[0].digest == digest then DocumentFormat else TreeFormat
    }
  }

  datatype Request =
    | GetDocument(name: string, version: string)
    | GetResource(name: string, version: string, resource: string)
    | GetFile(name: string, version: string, path: string)

  /** The registry as one run sees it: a download is a body with an ETag, or it fails. */
  datatype Server = Server(get: Request -> Option<(Bytes, string)>,
                           resources: (string, string) -> Option<seq<ResourceEntry>>)

  /** The digest functions, the size budget, and the choice of a tree's primary document. */
  datatype Rules = Rules(digests: Digests, fits: Resolved -> bool, primary: (string, seq<FileEntry>) -> string)

  /** A download counts only when its ETag, if any, and its recomputed digest equal the expected digest. */
  function Download(s: Server, d: Digests, req: Request, format: Format, kind: FileType,
                    want: string): (r: Option<Bytes>)
    ensures r.Some? ==> VerifyFile(d, format, kind, r.value, want)
    ensures r.Some? <==>
            && ValidName(req.name) && s.get(req).Some?
            && (s.get(req).value.1 == "" || s.get(req).value.1 == want)
            && VerifyFile(d, format, kind, s.get(req).value.0, want)
    ensures r.Some? ==> r.value == s.get(req).value.0
  {
    if !ValidName(req.name) then None
    else match s.get(req)
      case None => None
      case Some((body, etag)) =>
        if etag != "" && etag != want then None
        else if !VerifyFile(d, format, kind, body, want) then None
        else Some(body)
  }

  /** The lock entry of a resolved package: it depends on the registry's answers only, never on the disk. */
  function EntryOf(rules: Rules, s: Server, r: Resolved): Entry {
    var e := Entry(r.name, r.version, r.tag, r.digest, r.Format(), "", r.direct, r.dependencies, [], []);
    if r.Format() == TreeFormat then e.(files := r.files, path := rules.primary(r.name, r.files))
    else match (ParseName(r.name), s.resources(r.name, r.version))
      case (Some((scope, base)), Some(listed)) =>
        e.(path := ".bino/registry/" + scope + "/" + base + "/" + base + ".yml",
           resources := Sorting.SortBy(ResourceKey, listed))
      case _ => e
  }

  /** What a lock entry says of a resolved package. One whose files are a single document with the version digest is
      recorded as that document with the resources the registry lists, any other with its files. */
  ghost predicate Records(rules: Rules, s: Server, r: Resolved, e: Entry) {
    && e.name == r.name && e.version == r.version && e.tag == r.tag && e.digest == r.digest && e.direct == r.direct
    && multiset(e.dependencies) == multiset(r.dependencies)
    && if exists path :: r.files == [FileEntry(path, DocumentFile, r.digest)] then RecordsDocument(s, r, e)
       else e.format == TreeFormat && e.path == rules.primary(r.name, r.files)
            && multiset(e.TreeFiles()) == multiset(r.files) && e.resources == []
  }

  ghost predicate RecordsDocument(s: Server, r: Resolved, e: Entry) {
    s.resources(r.name, r.version).Some?
    && exists scope, base :: DocumentAt(r, scope, base, s.resources(r.name, r.version).value, e)
  }

  ghost predicate DocumentAt(r: Resolved, scope: string, base: string, listed: seq<ResourceEntry>, e: Entry) {
    && r.name == "@" + scope + "/" + base && '/' !in scope && '/' !in base
    && e.format == DocumentFormat && e.path == ".bino/registry/" + scope + "/" + base + "/" + base + ".yml"
    && multiset(e.resources) == multiset(listed) && e.files == []
    && forall f :: f in e.TreeFiles() <==>
         || f == FileEntry(base + ".yml", DocumentFile, r.digest)
         || exists m :: m in listed && f == FileEntry(m.name, ResourceFile, m.hash)
  }

  /** The lock has one entry for each package, by name, and no other. */
  ghost predicate LockRecords(rules: Rules, s: Server, rs: seq<Resolved>, lock: seq<Entry>) {
    && |lock| == |rs| && DistinctNames(lock) && (forall e | e in lock :: exists r :: r in rs && r.name == e.name)
    && forall r | r in rs :: Get(lock, r.name).Some? && Records(rules, s, r, Get(lock, r.name).value)
  }

  function ClosureOf(rules: Rules, s: Server, rs: seq<Resolved>): (es: seq<Entry>)
    ensures |es| == |rs|
    ensures forall i | 0 <= i < |es| :: es[i] == EntryOf(rules, s, rs[i])
  {
    seq(|rs|, i requires 0 <= i < |rs| => EntryOf(rules, s, rs[i]))
  }

  // ------------------------------------------------- what is fetched, as values

  /** One file of a locked package over the route its format lives on. */
  function FetchLockedFile(s: Server, d: Digests, e: Entry, f: FileEntry): (r: Option<Bytes>)
    ensures r.Some? && f in e.TreeFiles() ==> Verifies(d, Fetchable(e), f, r.value)
  {
    if e.format == TreeFormat then Download(s, d, GetFile(e.name, e.version, f.path), TreeFormat, f.kind, f.digest)
    else if f.kind == ResourceFile then
      Download(s, d, GetResource(e.name, e.version, f.path), DocumentFormat, ResourceFile, f.digest)
    else
      Download(s, d, GetDocument(e.name, e.version), DocumentFormat, DocumentFile, f.digest)
  }

  /** A tree's files live on the file route, and a package of any other format has one document and its resources, each
      with the digest rule of a document. */
  lemma FetchedOverItsRoute(s: Server, d: Digests, e: Entry, f: FileEntry, body: Bytes)
    ensures FetchLockedFile(s, d, e, f) == Some(body) <==>
              var req := if e.format == TreeFormat then GetFile(e.name, e.version, f.path)
                         else if f.kind == ResourceFile then GetResource(e.name, e.version, f.path)
                         else GetDocument(e.name, e.version);
              var rule := if e.format == TreeFormat then TreeFormat else DocumentFormat;
              var kind := if e.format == TreeFormat || f.kind == ResourceFile then f.kind else DocumentFile;
              && ValidName(e.name) && DigestOf(d, rule, kind, body) == Some(f.digest)
              && exists etag :: s.get(req) == Some((body, etag)) && (etag == "" || etag == f.digest)
  {
  }

  /** A file can be had: it verifies on disk, or it downloads. */
  predicate Obtainable(s: Server, d: Digests, files: Files, e: Entry, f: FileEntry) {
    OnDisk(d, files, e, f) || FetchLockedFile(s, d, e, f).Some?
  }

  /** The bodies of the files that do not verify on disk, added to those there are; None when a download fails. */
  function BodiesOf(s: Server, d: Digests, files: Files, e: Entry, fs: seq<FileEntry>, bodies: map<string, Bytes>)
    : Option<map<string, Bytes>>
  {
    if fs == [] then Some(bodies)
    else
      var prev, f := BodiesOf(s, d, files, e, fs[..|fs| - 1], bodies), fs[|fs| - 1];
      if prev.None? || OnDisk(d, files, e, f) then prev
      else
        var body := FetchLockedFile(s, d, e, f);
        if body.None? then None else Some(prev.value[f.path := body.value])
  }

  /** The plan of a locked package of any format. */
  function LockedPlan(s: Server, d: Digests, files: Files, e: Entry): Option<Plan> {
    var bodies := BodiesOf(s, d, files, e, e.TreeFiles(), map[]);
    if bodies.None? then None else Some(Plan(e, bodies.value))
  }

  function DocumentPath(name: string): string
    requires ValidName(name)
  {
    ParseName(name).value.1 + ".yml"
  }

  /** The plan of a single-document package: the document is always downloaded, a bundled resource only when it does
      not verify on disk. */
  function DocumentPlan(rules: Rules, s: Server, files: Files, r: Resolved): Option<Plan> {
    var d, e := rules.digests, EntryOf(rules, s, r);
    var body := Download(s, d, GetDocument(r.name, r.version), DocumentFormat, DocumentFile, r.digest);
    var listed := s.resources(r.name, r.version);
    if body.None? || listed.None? then None
    else
      var bodies := BodiesOf(s, d, files, e, ListedFiles(listed.value), map[DocumentPath(r.name) := body.value]);
      if bodies.None? then None else Some(Plan(e, bodies.value))
  }

  function PlanOf(rules: Rules, s: Server, files: Files, r: Resolved): Option<Plan> {
    if r.Format() == DocumentFormat then DocumentPlan(rules, s, files, r)
    else if !rules.fits(r) then None
    else LockedPlan(s, rules.digests, files, EntryOf(rules, s, r))
  }

  function ListedFiles(listed: seq<ResourceEntry>): (r: seq<FileEntry>)
    ensures |r| == |listed| && forall i | 0 <= i < |r| :: r[i] == ResourceOf(listed[i])
  {
    seq(|listed|, i requires 0 <= i < |listed| => ResourceOf(listed[i]))
  }

  // ---------------------------------------------------------------- fetching

  /** Nothing is written here; the plan is what the package still needs. */
  method FetchPackage(disk: Disk, rules: Rules, s: Server, r: Resolved) returns (res: Option<Plan>)
    ensures res == PlanOf(rules, s, disk.files, r)
  {
    if r.Format() == TreeFormat {
      if !rules.fits(r) { return None; }
      res := FetchFiles(disk, rules.digests, s, EntryOf(rules, s, r));
    } else {
      res := FetchDocument(disk, rules, s, r);
    }
  }

  /** A tree package, or a locked package of any format: reuse what verifies on disk, download the rest. */
  method FetchFiles(disk: Disk, d: Digests, s: Server, e: Entry) returns (res: Option<Plan>)
    ensures res == LockedPlan(s, d, disk.files, e)
  {
    var bodies := FetchAll(disk, d, s, e, e.TreeFiles(), map[]);
    res := if bodies.None? then None else Some(Plan(e, bodies.value));
  }

  method FetchAll(disk: Disk, d: Digests, s: Server, e: Entry, fs: seq<FileEntry>, start: map<string, Bytes>)
    returns (res: Option<map<string, Bytes>>)
    ensures res == BodiesOf(s, d, disk.files, e, fs, start)
  {
    var bodies := start;
    for i := 0 to |fs|
      invariant BodiesOf(s, d, disk.files, e, fs[..i], start) == Some(bodies)
    {
      TakeNext(fs, i);
      if !OnDisk(d, disk.files, e, fs[i]) {
        var body := FetchLockedFile(s, d, e, fs[i]);
        if body.None? {
          NoBodies(s, d, disk.files, e, fs, i + 1, start);
          return None;
        }
        bodies := bodies[fs[i].path := body.value];
      }
    }
    assert fs[..|fs|] == fs;
    res := Some(bodies);
  }

  method FetchDocument(disk: Disk, rules: Rules, s: Server, r: Resolved) returns (res: Option<Plan>)
    requires r.Format() == DocumentFormat
    ensures res == DocumentPlan(rules, s, disk.files, r)
  {
    var d := rules.digests;
    var body := Download(s, d, GetDocument(r.name, r.version), DocumentFormat, DocumentFile, r.digest);
    if body.None? { return None; }
    var listed := s.resources(r.name, r.version);
    if listed.None? { return None; }
    var e := EntryOf(rules, s, r);
    var bodies := FetchAll(disk, d, s, e, ListedFiles(listed.value), map[DocumentPath(r.name) := body.value]);
    res := if bodies.None? then None else Some(Plan(e, bodies.value));
  }

  // ------------------------------------------------ when a fetch succeeds

  lemma {:induction false} NoBodies(s: Server, d: Digests, files: Files, e: Entry, fs: seq<FileEntry>, n: nat,
                                    start: map<string, Bytes>)
    requires n <= |fs| && BodiesOf(s, d, files, e, fs[..n], start).None?
    ensures BodiesOf(s, d, files, e, fs, start).None?
  {
    if n == |fs| {
      assert fs[..n] == fs;
    } else {
      assert fs[..|fs| - 1][..n] == fs[..n];
      NoBodies(s, d, files, e, fs[..|fs| - 1], n, start);
    }
  }

  /** The bodies exist exactly if every file is obtainable; they are those there were and those of the files that do
      not verify on disk. */
  lemma {:induction false} BodiesExactly(s: Server, d: Digests, files: Files, e: Entry, fs: seq<FileEntry>,
                                         start: map<string, Bytes>)
    ensures BodiesOf(s, d, files, e, fs, start).Some? <==> forall f | f in fs :: Obtainable(s, d, files, e, f)
    ensures BodiesOf(s, d, files, e, fs, start).Some? ==>
              forall p :: p in BodiesOf(s, d, files, e, fs, start).value <==>
                p in start || exists f :: f in fs && f.path == p && !OnDisk(d, files, e, f)
  {
    if fs != [] {
      var init := fs[..|fs| - 1];
      BodiesExactly(s, d, files, e, init, start);
      InitAndLast(fs);
      assert forall f :: f in fs <==> f in init || f == fs[|fs| - 1];
      assert Obtainable(s, d, files, e, fs[|fs| - 1]) || fs[|fs| - 1] in fs;
    }
  }

  /** Every body verifies for a file of its path, under the format it was fetched as. */
  lemma {:induction false} BodiesAreVerified(s: Server, d: Digests, files: Files, e: Entry, fs: seq<FileEntry>,
                                             start: map<string, Bytes>)
    requires BodiesOf(s, d, files, e, fs, start).Some? && BodiesVerify(d, Fetchable(e), start)
    requires forall f | f in fs :: f in e.TreeFiles()
    ensures BodiesVerify(d, Fetchable(e), BodiesOf(s, d, files, e, fs, start).value)
  {
    if fs != [] {
      var init, f := fs[..|fs| - 1], fs[|fs| - 1];
      InitAndLast(fs);
      BodiesAreVerified(s, d, files, e, init, start);
      if !OnDisk(d, files, e, f) {
        assert Fetchable(e).TreeFiles() == e.TreeFiles();
        BodyAdded(d, Fetchable(e), BodiesOf(s, d, files, e, init, start).value, f, FetchLockedFile(s, d, e, f).value);
      }
    }
  }

  /** A locked package can be fetched exactly if each of its files can be had, and its plan needs no more. */
  lemma LockedPlanWhen(s: Server, d: Digests, files: Files, e: Entry)
    ensures LockedPlan(s, d, files, e).Some? <==> forall f | f in e.TreeFiles() :: Obtainable(s, d, files, e, f)
    ensures LockedPlan(s, d, files, e).Some? ==>
              var pl := LockedPlan(s, d, files, e).value;
              && pl.entry == e && Fetched(d, files, Plan(Fetchable(e), pl.bodies))
              && forall p :: p in pl.bodies <==>
                   exists f :: f in e.TreeFiles() && f.path == p && !OnDisk(d, files, e, f)
  {
    BodiesExactly(s, d, files, e, e.TreeFiles(), map[]);
    if LockedPlan(s, d, files, e).Some? { LockedVerifies(s, d, files, e); }
  }

  // Every body of a locked package verifies, and its other files lie verified on disk.
  lemma LockedVerifies(s: Server, d: Digests, files: Files, e: Entry)
    requires LockedPlan(s, d, files, e).Some?
    ensures Fetched(d, files, Plan(Fetchable(e), LockedPlan(s, d, files, e).value.bodies))
  {
    BodiesExactly(s, d, files, e, e.TreeFiles(), map[]);
    BodiesAreVerified(s, d, files, e, e.TreeFiles(), map[]);
    assert Fetchable(e).TreeFiles() == e.TreeFiles();
    var bodies := LockedPlan(s, d, files, e).value.bodies;
    forall f | f in e.TreeFiles() && f.path !in bodies ensures OnDisk(d, files, Fetchable(e), f) {
      OnDiskAsFetched(d, files, e, f);
    }
  }

  lemma OnDiskAsFetched(d: Digests, files: Files, e: Entry, f: FileEntry)
    requires OnDisk(d, files, e, f)
    ensures OnDisk(d, files, Fetchable(e), f)
  {
  }

  /** What a package needs to be fetched: a tree has to fit the budget, a document to download and its resources to be
      listed, and every further file to be obtainable. */
  predicate CanFetch(rules: Rules, s: Server, files: Files, r: Resolved) {
    var d, e, listed := rules.digests, EntryOf(rules, s, r), s.resources(r.name, r.version);
    if r.Format() == TreeFormat then rules.fits(r) && forall f | f in r.files :: Obtainable(s, d, files, e, f)
    else
      && Download(s, d, GetDocument(r.name, r.version), DocumentFormat, DocumentFile, r.digest).Some?
      && listed.Some? && forall f | f in ListedFiles(listed.value) :: Obtainable(s, d, files, e, f)
  }

  /** The paths a fetch downloads: the document always, any other file unless it verifies on disk. */
  ghost predicate Downloads(rules: Rules, s: Server, files: Files, r: Resolved, p: string) {
    var e := EntryOf(rules, s, r);
    || (r.Format() == DocumentFormat && ValidName(r.name) && p == DocumentPath(r.name))
    || exists f :: f in e.TreeFiles() && f.path == p && !OnDisk(rules.digests, files, e, f)
         && (r.Format() == DocumentFormat ==> f.kind == ResourceFile)
  }

  /** A fetch fails exactly if the package lacks something it needs; otherwise the plan is complete and downloads no
      more than is missing. */
  lemma PlanWhen(rules: Rules, s: Server, files: Files, r: Resolved)
    ensures PlanOf(rules, s, files, r).Some? <==> CanFetch(rules, s, files, r)
    ensures PlanOf(rules, s, files, r).Some? ==>
              var pl := PlanOf(rules, s, files, r).value;
              && pl.entry == EntryOf(rules, s, r) && Fetched(rules.digests, files, pl)
              && forall p :: p in pl.bodies <==> Downloads(rules, s, files, r, p)
  {
    var e := EntryOf(rules, s, r);
    if r.Format() == DocumentFormat {
      DocumentPlanWhen(rules, s, files, r);
    } else {
      LockedPlanWhen(s, rules.digests, files, e);
      assert e.TreeFiles() == r.files && Fetchable(e) == e;
    }
  }

  lemma OneDocumentIff(r: Resolved)
    ensures r.Format() == DocumentFormat <==> exists path :: r.files == [FileEntry(path, DocumentFile, r.digest)]
    ensures r.Format() == DocumentFormat || r.Format() == TreeFormat
  {
    if r.Format() == DocumentFormat {
      assert r.files == [FileEntry(r.files[0].path, DocumentFile, r.digest)];
    }
  }

  lemma ListedMembers(listed: seq<ResourceEntry>, f: FileEntry)
    ensures f in ListedFiles(listed) <==> exists m :: m in listed && f == FileEntry(m.name, ResourceFile, m.hash)
  {
    if i :| 0 <= i < |listed| && ListedFiles(listed)[i] == f {
      assert listed[i] in listed;
    }
    if m :| m in listed && f == FileEntry(m.name, ResourceFile, m.hash) {
      var i :| 0 <= i < |listed| && listed[i] == m;
      assert ListedFiles(listed)[i] == f;
    }
  }

  lemma SavedDocumentRecords(rules: Rules, s: Server, r: Resolved)
    requires r.Format() == DocumentFormat && ValidName(r.name) && s.resources(r.name, r.version).Some?
    ensures RecordsDocument(s, r, Normalize(EntryOf(rules, s, r)))
  {
    var e, listed := EntryOf(rules, s, r), s.resources(r.name, r.version).value;
    var (scope, base) := ParseName(r.name).value;
    DocumentEntry(rules, s, r, scope, base, listed);
    NormalizeKeepsFiles(e);
    forall f ensures f in Normalize(e).TreeFiles() <==>
        || f == FileEntry(base + ".yml", DocumentFile, r.digest)
        || exists m :: m in listed && f == FileEntry(m.name, ResourceFile, m.hash)
    {
      DocumentFiles(rules, s, r);
      ListedMembers(listed, f);
    }
    assert DocumentAt(r, scope, base, listed, Normalize(e));
  }

  lemma DocumentEntry(rules: Rules, s: Server, r: Resolved, scope: string, base: string, listed: seq<ResourceEntry>)
    requires r.Format() == DocumentFormat && ParseName(r.name) == Some((scope, base))
    requires s.resources(r.name, r.version) == Some(listed)
    ensures r.name == "@" + scope + "/" + base && '/' !in scope && '/' !in base
    ensures var e := Normalize(EntryOf(rules, s, r));
            && e.format == DocumentFormat && e.path == ".bino/registry/" + scope + "/" + base + "/" + base + ".yml"
            && multiset(e.resources) == multiset(listed) && e.files == []
  {
    ParsedExactly(r.name, scope, base);
    ParsedExactly(r.name, base, base);
    Sorting.SortByCorrect(ResourceKey, listed);
    Sorting.SortByCorrect(ResourceKey, Sorting.SortBy(ResourceKey, listed));
  }

  /** The entry of a package that can be fetched, as the lock saves it, says what the registry resolved. */
  lemma SavedEntryRecords(rules: Rules, s: Server, files: Files, r: Resolved)
    requires CanFetch(rules, s, files, r)
    ensures Records(rules, s, r, Normalize(EntryOf(rules, s, r)))
  {
    var e := EntryOf(rules, s, r);
    OneDocumentIff(r);
    Sorting.SortByCorrect(TextKey, e.dependencies);
    if r.Format() == DocumentFormat {
      SavedDocumentRecords(rules, s, r);
    } else {
      Sorting.SortByCorrect(PathKey, e.files);
    }
  }

  lemma DocumentPlanWhen(rules: Rules, s: Server, files: Files, r: Resolved)
    requires r.Format() == DocumentFormat
    ensures DocumentPlan(rules, s, files, r).Some? <==> CanFetch(rules, s, files, r)
    ensures DocumentPlan(rules, s, files, r).Some? ==>
              var pl := DocumentPlan(rules, s, files, r).value;
              && pl.entry == EntryOf(rules, s, r) && Fetched(rules.digests, files, pl)
              && forall p :: p in pl.bodies <==> Downloads(rules, s, files, r, p)
  {
    var d, e := rules.digests, EntryOf(rules, s, r);
    var body := Download(s, d, GetDocument(r.name, r.version), DocumentFormat, DocumentFile, r.digest);
    var listed := s.resources(r.name, r.version);
    if body.Some? && listed.Some? {
      BodiesExactly(s, d, files, e, ListedFiles(listed.value), map[DocumentPath(r.name) := body.value]);
      if DocumentPlan(rules, s, files, r).Some? { DocumentPlanIs(rules, s, files, r); }
    }
  }

  // What a fetched document's plan holds.
  lemma DocumentPlanIs(rules: Rules, s: Server, files: Files, r: Resolved)
    requires r.Format() == DocumentFormat && DocumentPlan(rules, s, files, r).Some?
    ensures var pl := DocumentPlan(rules, s, files, r).value;
            && pl.entry == EntryOf(rules, s, r) && Fetched(rules.digests, files, pl)
            && forall p :: p in pl.bodies <==> Downloads(rules, s, files, r, p)
  {
    var d, e := rules.digests, EntryOf(rules, s, r);
    var body := Download(s, d, GetDocument(r.name, r.version), DocumentFormat, DocumentFile, r.digest).value;
    var fs := ListedFiles(s.resources(r.name, r.version).value);
    var start := map[DocumentPath(r.name) := body];
    BodiesExactly(s, d, files, e, fs, start);
    DocumentVerifies(rules, s, files, r);
    var pl := DocumentPlan(rules, s, files, r).value;
    forall p ensures p in pl.bodies <==> Downloads(rules, s, files, r, p) {
      DocumentDownloads(rules, s, files, r, p);
    }
  }

  // Every body of a fetched document verifies, and its other files lie verified on disk.
  lemma DocumentVerifies(rules: Rules, s: Server, files: Files, r: Resolved)
    requires r.Format() == DocumentFormat && DocumentPlan(rules, s, files, r).Some?
    ensures Fetched(rules.digests, files, DocumentPlan(rules, s, files, r).value)
  {
    var d, e := rules.digests, EntryOf(rules, s, r);
    var body := Download(s, d, GetDocument(r.name, r.version), DocumentFormat, DocumentFile, r.digest).value;
    var fs := ListedFiles(s.resources(r.name, r.version).value);
    var start := map[DocumentPath(r.name) := body];
    BodiesExactly(s, d, files, e, fs, start);
    DocumentFiles(rules, s, r);
    var doc := FileEntry(DocumentPath(r.name), DocumentFile, r.digest);
    assert doc in e.TreeFiles() && Fetchable(e) == e;
    assert BodiesVerify(d, e, start);
    BodiesAreVerified(s, d, files, e, fs, start);
  }

  lemma DocumentDownloads(rules: Rules, s: Server, files: Files, r: Resolved, p: string)
    requires r.Format() == DocumentFormat && ValidName(r.name) && s.resources(r.name, r.version).Some?
    ensures var e, fs := EntryOf(rules, s, r), ListedFiles(s.resources(r.name, r.version).value);
            Downloads(rules, s, files, r, p) <==>
              (p == DocumentPath(r.name) || exists f :: f in fs && f.path == p && !OnDisk(rules.digests, files, e, f))
  {
    DocumentFiles(rules, s, r);
  }

  lemma SortedListing(listed: seq<ResourceEntry>)
    ensures forall f :: f in ListedFiles(Sorting.SortBy(ResourceKey, listed)) <==> f in ListedFiles(listed)
  {
    var sorted := Sorting.SortBy(ResourceKey, listed);
    Sorting.SortByCorrect(ResourceKey, listed);
    forall f ensures f in ListedFiles(sorted) <==> f in ListedFiles(listed) {
      if i :| 0 <= i < |listed| && ListedFiles(listed)[i] == f {
        assert listed[i] in sorted;
        var j :| 0 <= j < |sorted| && sorted[j] == listed[i];
        assert ListedFiles(sorted)[j] == f;
      }
      if i :| 0 <= i < |sorted| && ListedFiles(sorted)[i] == f {
        assert sorted[i] in listed;
        var j :| 0 <= j < |listed| && listed[j] == sorted[i];
        assert ListedFiles(listed)[j] == f;
      }
    }
  }

  /** A single-document package occupies its document and its listed resources. */
  lemma DocumentFiles(rules: Rules, s: Server, r: Resolved)
    requires r.Format() == DocumentFormat && ValidName(r.name) && s.resources(r.name, r.version).Some?
    ensures forall f :: f in EntryOf(rules, s, r).TreeFiles() <==>
              f == FileEntry(DocumentPath(r.name), DocumentFile, r.digest)
              || f in ListedFiles(s.resources(r.name, r.version).value)
  {
    var e := EntryOf(rules, s, r);
    var (scope, base) := ParseName(r.name).value;
    SortedListing(s.resources(r.name, r.version).value);
    assert e.ResourceFiles() == ListedFiles(e.resources);
    var file := base + ".yml";
    assert '/' !in file;
    BaseOfJoined(".bino/registry/" + scope + "/" + base, file);
    assert e.path == ".bino/registry/" + scope + "/" + base + "/" + file;
    assert e.TreeFiles() == [FileEntry(file, DocumentFile, r.digest)] + e.ResourceFiles();
  }
}
