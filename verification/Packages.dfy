/** Registry package names, lock entries and the digest rules that verify a file. */
module Packages {
  import opened Text
  import opened Splitting

  type Bytes = seq<bv8>

  // ---------------------------------------------------------------- names

  predicate TokenHead(c: char) {
    'a' <= c <= 'z' || '0' <= c <= '9'
  }

  predicate IsToken(s: string) {
    s != [] && TokenHead(s[0]) && forall c | c in s :: TokenHead(c) || c == '_' || c == '-'
  }

  /** "@scope/base" split into its two tokens. */
  function ParseName(name: string): Option<(string, string)> {
    if name == [] || name[0] != '@' then None
    else
      var rest := name[1..];
      var i := IndexOf(rest, '/');
      if i == |rest| || !IsToken(rest[..i]) || !IsToken(rest[i + 1..]) then None
      else Some((rest[..i], rest[i + 1..]))
  }

  predicate ValidName(name: string) {
    ParseName(name).Some?
  }

  /** A name parses in one way: two tokens between "@" and "/". */
  lemma ParsedExactly(name: string, scope: string, base: string)
    ensures ParseName(name) == Some((scope, base)) <==>
            name == "@" + scope + "/" + base && IsToken(scope) && IsToken(base)
    ensures IsToken(scope) ==> '/' !in scope && '@' !in scope && '"' !in scope && '\'' !in scope
  {
    if name == "@" + scope + "/" + base && IsToken(scope) {
      var rest := name[1..];
      assert rest == scope + "/" + base;
      forall j | 0 <= j < |scope| ensures rest[j] != '/' {
        assert rest[j] == scope[j] && scope[j] in scope;
      }
      assert rest[|scope|] == '/' && IndexOf(rest, '/') == |scope|;
      assert rest[..|scope|] == scope && rest[|scope| + 1..] == base;
    }
    if ParseName(name) == Some((scope, base)) {
      assert name[1..] == scope + "/" + base;
    }
  }

  predicate SegmentHead(c: char) {
    'A' <= c <= 'Z' || 'a' <= c <= 'z' || '0' <= c <= '9'
  }

  predicate IsSegment(s: string) {
    1 <= |s| <= 255 && SegmentHead(s[0])
    && forall c | c in s :: SegmentHead(c) || c == '.' || c == '_' || c == '-'
  }

  /** A package file path: one segment or two, and no ".." anywhere. */
  predicate ValidTreePath(p: string) {
    var i := IndexOf(p, '/');
    IsSegment(p[..i]) && (i == |p| || IsSegment(p[i + 1..])) && !Contains(p, "..")
  }

  /** The two grammars: letters and digits, and inside also the signs, which never come first. */
  lemma GrammarExactly(s: string)
    ensures IsToken(s) <==>
            && s != "" && s[0] != '_' && s[0] != '-'
            && forall c | c in s :: 'a' <= c <= 'z' || '0' <= c <= '9' || c == '_' || c == '-'
    ensures IsSegment(s) <==>
            && 1 <= |s| <= 255 && s[0] != '.' && s[0] != '_' && s[0] != '-'
            && forall c | c in s ::
                 'A' <= c <= 'Z' || 'a' <= c <= 'z' || '0' <= c <= '9' || c == '.' || c == '_' || c == '-'
  {
    if s != "" {
      assert s[0] in s;
    }
  }

  /** A file lies in the package directory or in a directory below it, and not deeper. */
  lemma TreePathExactly(dir: string, file: string)
    requires '/' !in dir
    ensures ValidTreePath(dir) <==> IsSegment(dir) && !Contains(dir, "..")
    ensures ValidTreePath(dir + "/" + file) <==>
            IsSegment(dir) && IsSegment(file) && !Contains(dir + "/" + file, "..")
    ensures IsSegment(file) ==> '/' !in file
  {
    var p := dir + "/" + file;
    assert dir[..|dir|] == dir && p[..|dir|] == dir && p[|dir| + 1..] == file;
    assert p[|dir|] == '/' && forall j | 0 <= j < |dir| :: p[j] == dir[j];
  }

  /** Where a package file lies below the project root. */
  function StoreFile(name: string, path: string): string
    requires ValidName(name)
  {
    var (scope, base) := ParseName(name).value;
    ".bino/registry/" + scope + "/" + base + "/" + path
  }

  lemma BelowRoot(name: string, path: string)
    requires ValidName(name)
    ensures var (scope, base) := ParseName(name).value;
            StoreFile(name, path)[|".bino/registry/"|..] == scope + "/" + (base + "/" + path)
  {
    var (scope, base) := ParseName(name).value;
    assert StoreFile(name, path) == ".bino/registry/" + (scope + "/" + (base + "/" + path));
  }

  /** Files of different packages never share a place in the store, so a map from (name, path) to bytes
      stands for the store directory. */
  lemma StoreFileInjective(n1: string, p1: string, n2: string, p2: string)
    requires ValidName(n1) && ValidName(n2)
    requires StoreFile(n1, p1) == StoreFile(n2, p2)
    ensures n1 == n2 && p1 == p2
  {
    var (s1, b1) := ParseName(n1).value;
    var (s2, b2) := ParseName(n2).value;
    BelowRoot(n1, p1);
    BelowRoot(n2, p2);
    FirstCut('/', s1, s2, b1 + "/" + p1, b2 + "/" + p2);
    FirstCut('/', b1, b2, p1, p2);
    assert n1 == "@" + s1 + "/" + b1 && n2 == "@" + s2 + "/" + b2;
  }

  // -------------------------------------------------------------- entries

  datatype Format = NoFormat | DocumentFormat | TreeFormat | OtherFormat(text: string)

  datatype FileType = DocumentFile | ResourceFile | OtherFile(text: string)

  datatype FileEntry = FileEntry(path: string, kind: FileType, digest: string)

  datatype ResourceEntry = ResourceEntry(name: string, hash: string)

  function ResourceOf(m: ResourceEntry): FileEntry {
    FileEntry(m.name, ResourceFile, m.hash)
  }

  /** One locked package. Kinds and compat ranges are carried along unread and are left out. */
  datatype Entry = Entry(name: string, version: string, tag: string, digest: string, format: Format,
                         path: string, direct: bool, dependencies: seq<string>,
                         files: seq<FileEntry>, resources: seq<ResourceEntry>)
  {
    function ResourceFiles(): (r: seq<FileEntry>)
      ensures |r| == |resources|
    {
      seq(|resources|, i requires 0 <= i < |resources| => ResourceOf(resources[i]))
    }

    lemma ResourceFilesMembers()
      ensures forall f :: f in ResourceFiles() <==> exists m :: m in resources && f == ResourceOf(m)
    {
      forall f ensures f in ResourceFiles() <==> exists m :: m in resources && f == ResourceOf(m) {
        if m :| m in resources && f == ResourceOf(m) {
          var i :| 0 <= i < |resources| && resources[i] == m;
          assert ResourceFiles()[i] == f;
        }
      }
    }

    /** The entry's files in one shape for both formats. */
    function TreeFiles(): seq<FileEntry> {
      if format == TreeFormat then files
      else (if path != "" then [FileEntry(Base(path), DocumentFile, digest)] else []) + ResourceFiles()
    }

    /** The paths the entry records. */
    function Paths(): set<string> {
      set f | f in TreeFiles() :: f.path
    }
  }

  // -------------------------------------------------------------- digests

  /** The three digest functions; a document that has no canonical form has no digest. */
  datatype Digests = Digests(resource: Bytes -> string, tree: Bytes -> Option<string>,
                             document: Bytes -> Option<string>)

  function DigestOf(d: Digests, format: Format, kind: FileType, body: Bytes): Option<string> {
    if kind == ResourceFile then Some(d.resource(body))
    else match format
      case TreeFormat => d.tree(body)
      case DocumentFormat => d.document(body)
      case _ => None
  }

  predicate VerifyFile(d: Digests, format: Format, kind: FileType, body: Bytes, want: string) {
    DigestOf(d, format, kind, body) == Some(want)
  }

  /** The routes know two formats: whatever is not a tree is fetched as a single document. */
  function Fetchable(e: Entry): Entry {
    if e.format == TreeFormat then e else e.(format := DocumentFormat)
  }

  predicate Verifies(d: Digests, e: Entry, f: FileEntry, body: Bytes) {
    VerifyFile(d, e.format, f.kind, body, f.digest)
  }

  /** Entries of the same path agree on what the file must be. */
  predicate Coherent(e: Entry) {
    forall f, g | f in e.TreeFiles() && g in e.TreeFiles() && f.path == g.path :: f == g
  }
}
