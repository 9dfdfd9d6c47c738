/** Extracting an archive: limits, contents and containment on every outcome. */
module ArchiveExtract {
  import opened Text
  import opened Splitting
  import opened Sequences
  import opened ArchivePaths

  const MAX_INT64: int := 0x7FFF_FFFF_FFFF_FFFF
  type Int64 = x: int | -MAX_INT64 - 1 <= x <= MAX_INT64

  type Byte = x: int | 0 <= x < 256

  datatype Strip = StripNone | StripFixed | StripAuto | Unknown(mode: int)
  datatype Limits = Limits(maxFileBytes: Int64, maxTotalBytes: Int64, maxEntries: int)
  datatype Options = Options(strip: Strip, fixedPrefix: string, untrusted: bool, limits: Limits)

  datatype Kind = Directory | Regular | Other
  /** What the operating system refuses for one entry: a directory, when this many levels above it are there, the
      resolved parent, the file, its end, its closing. */
  datatype Faults = Faults(mkdir: Option<nat>, parent: bool, open: bool, read: bool, close: bool)
  datatype Entry = Entry(name: string, kind: Kind, body: seq<Byte>, faults: Faults)

  datatype Error = TooManyFiles | Symlink | InvalidPath | FileTooBig | ArchiveTooBig | UnknownStrip | Io

  // ------------------------------------------------------- prefix to strip

  function Slashed(name: string): bool {
    '/' in name
  }

  /** The first directory of a name, with its slash. */
  function Top(name: string): string {
    Split(name, '/')[0] + "/"
  }

  /** detectCommonPrefix: the one directory that every name with a slash begins with, or nothing. */
  method DetectCommonPrefix(names: seq<string>) returns (prefix: string)
    ensures prefix != "" ==> (exists i | 0 <= i < |names| :: Slashed(names[i]))
                             && forall i | 0 <= i < |names| :: Slashed(names[i]) ==> Top(names[i]) == prefix
    ensures prefix == "" ==>
              forall i | 0 <= i < |names| ::
                Slashed(names[i]) ==> exists k | 0 <= k < |names| :: Slashed(names[k]) && Top(names[k]) != Top(names[i])
    ensures prefix == CommonPrefix(names)
  {
    prefix := "";
    for n := 0 to |names|
      invariant prefix == "" ==> forall i | 0 <= i < n :: !Slashed(names[i])
      invariant prefix != "" ==> exists i | 0 <= i < n :: Slashed(names[i])
      invariant prefix != "" ==> forall i | 0 <= i < n :: Slashed(names[i]) ==> Top(names[i]) == prefix
      invariant CommonPrefix(names) == PrefixFrom(prefix, names[n..])
    {
      assert names[n..][1..] == names[n + 1..];
      if Slashed(names[n]) {
        var candidate := Top(names[n]);
        if prefix == "" {
          prefix := candidate;
        } else if prefix != candidate {
          var first :| 0 <= first < n && Slashed(names[first]);
          assert Top(names[first]) == prefix;
          return "";
        }
      }
    }
  }

  function PrefixFrom(prefix: string, names: seq<string>): string
    decreases |names|
  {
    if names == [] then prefix
    else if !Slashed(names[0]) then PrefixFrom(prefix, names[1..])
    else if prefix == "" then PrefixFrom(Top(names[0]), names[1..])
    else if prefix != Top(names[0]) then ""
    else PrefixFrom(prefix, names[1..])
  }

  function CommonPrefix(names: seq<string>): string {
    PrefixFrom("", names)
  }

  lemma {:induction false} TopBegins(name: string)
    requires Slashed(name)
    ensures Top(name) <= name
  {
    if name[0] != '/' {
      TopBegins(name[1..]);
      assert Split(name, '/')[0] == [name[0]] + Split(name[1..], '/')[0];
      assert Top(name) == [name[0]] + Top(name[1..]);
      assert name == [name[0]] + name[1..];
    }
  }

  function TrimPrefix(s: string, prefix: string): string {
    if prefix <= s then s[|prefix|..] else s
  }

  function ResolvePrefix(opts: Options, names: seq<string>): Option<string> {
    match opts.strip
    case StripNone => Some("")
    case StripFixed => Some(opts.fixedPrefix)
    case StripAuto => Some(CommonPrefix(names))
    case Unknown(_) => None
  }

  // --------------------------------------------------------------- one file

  /** Addition of 64-bit integers. */
  function Wrapped(x: int): Int64 {
    (x + MAX_INT64 + 1) % (2 * (MAX_INT64 + 1)) - MAX_INT64 - 1
  }

  predicate FileCapped(opts: Options) {
    opts.untrusted && opts.limits.maxFileBytes > 0
  }

  /** The bytes that io.Copy moves, and whether it ends in a read error: a limited reader stops before that. */
  function Copied(opts: Options, e: Entry): (seq<Byte>, bool) {
    var n := Wrapped(opts.limits.maxFileBytes + 1);
    if !FileCapped(opts) then (e.body, e.faults.read)
    else if n <= |e.body| then (e.body[..if n > 0 then n else 0], false)
    else (e.body, e.faults.read)
  }

  function FileError(opts: Options, e: Entry): Option<Error> {
    var (bytes, failed) := Copied(opts, e);
    if failed then Some(Io)
    else if FileCapped(opts) && |bytes| > opts.limits.maxFileBytes then Some(FileTooBig)
    else if e.faults.close then Some(Io)
    else None
  }

  /** The first n levels of a path, from the top. */
  function Levels(p: Path, n: nat): set<Path> {
    set i: nat | i <= |p.parts| && i < n :: Path(p.rooted, p.parts[..i])
  }

  /** A directory and everything above it. */
  function AndAbove(p: Path): set<Path> {
    Levels(p, |p.parts| + 1)
  }

  /** These are the paths that p goes on from. */
  lemma LevelsExactly(p: Path, n: nat)
    ensures forall q :: q in Levels(p, n) <==> q.rooted == p.rooted && q.parts <= p.parts && |q.parts| < n
    ensures forall q :: q in AndAbove(p) <==> q.rooted == p.rooted && q.parts <= p.parts
  {
    forall q: Path | q.rooted == p.rooted && q.parts <= p.parts ensures q == Path(p.rooted, p.parts[..|q.parts|]) {
    }
  }

  /** The destination tree, the counters of the loop, all bytes written to disk, and the error that ended the loop. */
  datatype State = State(files: map<Path, seq<Byte>>, dirs: set<Path>, written: nat, entries: nat, total: nat,
                         error: Option<Error>)

  function Failed(st: State, e: Error): State {
    st.(error := Some(e))
  }

  function FileStep(opts: Options, st: State, e: Entry, target: Path): State {
    if e.faults.open then Failed(st, Io)
    else
      var bytes := Copied(opts, e).0;
      var on := st.(files := st.files[target := bytes], written := st.written + |bytes|);
      if FileError(opts, e).Some? then on.(error := FileError(opts, e))
      else if !opts.untrusted then on
      else
        var sum := on.(total := on.total + |bytes|);
        if opts.limits.maxTotalBytes > 0 && sum.total > opts.limits.maxTotalBytes then Failed(sum, ArchiveTooBig)
        else sum
  }

  function EntryStep(dest: string, prefix: string, opts: Options, st: State, e: Entry): State {
    var name := TrimPrefix(e.name, prefix);
    if name == "" then st
    else
      var on := if opts.untrusted then st.(entries := st.entries + 1) else st;
      if opts.untrusted && opts.limits.maxEntries > 0 && on.entries > opts.limits.maxEntries
      then Failed(on, TooManyFiles)
      else if opts.untrusted && e.kind == Other then Failed(on, Symlink)
      else
        match Sanitize(dest, name)
        case None => Failed(on, InvalidPath)
        case Some(target) =>
          var dir := if e.kind == Directory then target else Parent(target);
          if e.faults.mkdir.Some? then Failed(on.(dirs := on.dirs + Levels(dir, e.faults.mkdir.value)), Io)
          else if e.kind == Directory then on.(dirs := on.dirs + AndAbove(dir))
          else
            var made := on.(dirs := on.dirs + AndAbove(dir));
            if opts.untrusted && e.faults.parent then Failed(made, InvalidPath) else FileStep(opts, made, e, target)
  }

  /** The loop over the entries; an error ends it. */
  function After(dest: string, prefix: string, opts: Options, st: State, es: seq<Entry>): State {
    if es == [] then st
    else
      var before := After(dest, prefix, opts, st, es[..|es| - 1]);
      if before.error.Some? then before else EntryStep(dest, prefix, opts, before, es[|es| - 1])
  }

  function Extracted(dest: string, opts: Options, st: State, es: seq<Entry>, destFault: Option<nat>): State {
    if destFault.Some? then Failed(st.(dirs := st.dirs + Levels(Clean(dest), destFault.value)), Io)
    else
      var made := st.(dirs := st.dirs + AndAbove(Clean(dest)));
      match ResolvePrefix(opts, NamesOf(es))
      case None => Failed(made, UnknownStrip)
      case Some(prefix) => After(dest, prefix, opts, made, es)
  }

  function NamesOf(es: seq<Entry>): seq<string> {
    seq(|es|, i requires 0 <= i < |es| => es[i].name)
  }

  // -------------------------------------------------------------- the loop

  class Tree {
    var files: map<Path, seq<Byte>>
    var dirs: set<Path>
    var written: nat

    ghost function With(entries: nat, total: nat, error: Option<Error>): State
      reads this
    {
      State(files, dirs, written, entries, total, error)
    }

    /** Creates the directory and whatever is missing above it; a failure leaves the upper levels. */
    method MkdirAll(p: Path, fault: Option<nat>) returns (ok: bool)
      modifies this
      ensures ok <==> fault.None?
      ensures dirs == old(dirs) + (if ok then AndAbove(p) else Levels(p, fault.value))
      ensures forall q :: q in dirs <==>
                q in old(dirs) || (q.rooted == p.rooted && q.parts <= p.parts && (ok || |q.parts| < fault.value))
      ensures files == old(files) && written == old(written)
    {
      ok := fault.None?;
      var n := if ok then |p.parts| + 1 else fault.value;
      var made: set<Path> := {};
      for i := 0 to if n <= |p.parts| then n else |p.parts| + 1
        invariant made == Levels(p, i)
      {
        made := made + {Path(p.rooted, p.parts[..i])};
      }
      assert Levels(p, n) == made;
      LevelsExactly(p, n);
      dirs := dirs + made;
    }

    /** Writes one entry and counts its bytes. */
    method ExtractFile(opts: Options, e: Entry, target: Path) returns (n: nat, err: Option<Error>)
      modifies this
      ensures dirs == old(dirs)
      ensures e.faults.open ==> n == 0 && err == Some(Io) && files == old(files) && written == old(written)
      ensures !e.faults.open ==> err == FileError(opts, e) && n == |Copied(opts, e).0|
      ensures !e.faults.open ==> files == old(files)[target := Copied(opts, e).0] && written == old(written) + n
    {
      if e.faults.open { return 0, Some(Io); }
      var bytes, failed := Copied(opts, e).0, Copied(opts, e).1;
      files := files[target := bytes];
      n := |bytes|;
      written := written + n;
      err := if failed then Some(Io) else None;
      if err.None? && FileCapped(opts) && n > opts.limits.maxFileBytes {
        err := Some(FileTooBig);
      }
      if err.None? && e.faults.close {
        err := Some(Io);
      }
    }
  }

  method Extract(tree: Tree, dest: string, opts: Options, es: seq<Entry>, destFault: Option<nat>)
    returns (err: Option<Error>)
    modifies tree
    ensures var end := Extracted(dest, opts, old(tree.With(0, 0, None)), es, destFault);
            && err == end.error && tree.With(end.entries, end.total, err) == end
  {
    var made := tree.MkdirAll(Clean(dest), destFault);
    if !made { return Some(Io); }
    var prefix := "";
    match opts.strip {
      case StripNone =>
      case StripFixed => prefix := opts.fixedPrefix;
      case StripAuto => prefix := DetectCommonPrefix(NamesOf(es));
      case Unknown(_) => return Some(UnknownStrip);
    }
    err := ExtractAll(tree, dest, prefix, opts, es);
  }

  method ExtractAll(tree: Tree, dest: string, prefix: string, opts: Options, es: seq<Entry>)
    returns (err: Option<Error>)
    modifies tree
    ensures var end := After(dest, prefix, opts, old(tree.With(0, 0, None)), es);
            err == end.error && tree.With(end.entries, end.total, err) == end
  {
    ghost var start := tree.With(0, 0, None);
    var entries, total := 0, 0;
    for n := 0 to |es|
      invariant tree.With(entries, total, None) == After(dest, prefix, opts, start, es[..n])
    {
      TakeNext(es, n);
      entries, total, err := ExtractEntry(tree, dest, prefix, opts, es[n], entries, total);
      if err.Some? {
        ErrorStays(dest, prefix, opts, start, es, n + 1);
        return err;
      }
    }
    assert es[..|es|] == es;
    err := None;
  }

  /** One round of the loop. */
  method ExtractEntry(tree: Tree, dest: string, prefix: string, opts: Options, e: Entry, entries0: nat, total0: nat)
    returns (entries: nat, total: nat, err: Option<Error>)
    modifies tree
    ensures tree.With(entries, total, err) == EntryStep(dest, prefix, opts, old(tree.With(entries0, total0, None)), e)
  {
    entries, total, err := entries0, total0, None;
    var name := TrimPrefix(e.name, prefix);
    if name == "" { return; }
    if opts.untrusted {
      entries := entries + 1;
      if opts.limits.maxEntries > 0 && entries > opts.limits.maxEntries { return entries, total, Some(TooManyFiles); }
      if e.kind != Directory && e.kind != Regular { return entries, total, Some(Symlink); }
    }
    var target := Sanitize(dest, name);
    if target.None? { return entries, total, Some(InvalidPath); }
    var made := tree.MkdirAll(if e.kind == Directory then target.value else Parent(target.value), e.faults.mkdir);
    if !made { return entries, total, Some(Io); }
    if e.kind == Directory { return; }
    if opts.untrusted && e.faults.parent { return entries, total, Some(InvalidPath); }
    var n;
    n, err := tree.ExtractFile(opts, e, target.value);
    if err.None? && opts.untrusted {
      total := total + n;
      if opts.limits.maxTotalBytes > 0 && total > opts.limits.maxTotalBytes { err := Some(ArchiveTooBig); }
    }
  }

  lemma {:induction false} ErrorStays(dest: string, prefix: string, opts: Options, st: State, es: seq<Entry>, n: nat)
    requires n <= |es| && After(dest, prefix, opts, st, es[..n]).error.Some?
    ensures After(dest, prefix, opts, st, es) == After(dest, prefix, opts, st, es[..n])
  {
    if n == |es| {
      assert es[..n] == es;
    } else {
      assert es[..|es| - 1][..n] == es[..n];
      ErrorStays(dest, prefix, opts, st, es[..|es| - 1], n);
    }
  }

  // ------------------------------------------------------------------ limits

  predicate Counts(prefix: string, e: Entry) {
    TrimPrefix(e.name, prefix) != ""
  }

  predicate IsFile(prefix: string, e: Entry) {
    Counts(prefix, e) && e.kind != Directory
  }

  function CountOf(prefix: string, es: seq<Entry>): nat {
    if es == [] then 0 else CountOf(prefix, es[..|es| - 1]) + if Counts(prefix, es[|es| - 1]) then 1 else 0
  }

  function BytesOf(opts: Options, prefix: string, es: seq<Entry>): nat {
    if es == [] then 0
    else
      BytesOf(opts, prefix, es[..|es| - 1])
      + if IsFile(prefix, es[|es| - 1]) then |Copied(opts, es[|es| - 1]).0| else 0
  }

  /** What the caps admit for one entry. */
  predicate Admitted(opts: Options, e: Entry) {
    && e.kind != Other
    && (e.kind == Regular && FileCapped(opts) ==> |Copied(opts, e).0| <= opts.limits.maxFileBytes)
  }

  function Target(dest: string, prefix: string, e: Entry): Path {
    JoinPaths(dest, TrimPrefix(e.name, prefix))
  }

  function DirOf(dest: string, prefix: string, e: Entry): Path {
    if e.kind == Directory then Target(dest, prefix, e) else Parent(Target(dest, prefix, e))
  }

  /** What an entry without an error leaves behind. */
  function Stored(dest: string, prefix: string, opts: Options, st: State, e: Entry): State {
    if !Counts(prefix, e) then st
    else
      var n := if IsFile(prefix, e) then |Copied(opts, e).0| else 0;
      State(if IsFile(prefix, e) then st.files[Target(dest, prefix, e) := Copied(opts, e).0] else st.files,
            st.dirs + AndAbove(DirOf(dest, prefix, e)), st.written + n,
            if opts.untrusted then st.entries + 1 else st.entries,
            if opts.untrusted then st.total + n else st.total, None)
  }

  lemma FileStored(dest: string, prefix: string, opts: Options, st: State, e: Entry)
    requires IsFile(prefix, e) && FileStep(opts, st, e, Target(dest, prefix, e)).error.None?
    ensures FileStep(opts, st, e, Target(dest, prefix, e)) ==
            var n := |Copied(opts, e).0|;
            State(st.files[Target(dest, prefix, e) := Copied(opts, e).0], st.dirs, st.written + n, st.entries,
                  if opts.untrusted then st.total + n else st.total, None)
    ensures FileError(opts, e).None?
    ensures opts.untrusted && opts.limits.maxTotalBytes > 0 ==>
            st.total + |Copied(opts, e).0| <= opts.limits.maxTotalBytes
  {
  }

  lemma EntryStored(dest: string, prefix: string, opts: Options, st: State, e: Entry)
    requires st.error.None? && EntryStep(dest, prefix, opts, st, e).error.None?
    ensures EntryStep(dest, prefix, opts, st, e) == Stored(dest, prefix, opts, st, e)
    ensures opts.untrusted && Counts(prefix, e) ==> Admitted(opts, e)
    ensures opts.untrusted && Counts(prefix, e) && opts.limits.maxEntries > 0 ==>
            st.entries + 1 <= opts.limits.maxEntries
    ensures opts.untrusted && IsFile(prefix, e) && opts.limits.maxTotalBytes > 0 ==>
              st.total + |Copied(opts, e).0| <= opts.limits.maxTotalBytes
  {
    if IsFile(prefix, e) {
      var on := if opts.untrusted then st.(entries := st.entries + 1) else st;
      var made := on.(dirs := on.dirs + AndAbove(Parent(Target(dest, prefix, e))));
      assert EntryStep(dest, prefix, opts, st, e) == FileStep(opts, made, e, Target(dest, prefix, e));
      FileStored(dest, prefix, opts, made, e);
    }
  }

  lemma {:induction false} SuccessCounts(dest: string, prefix: string, opts: Options, st: State, es: seq<Entry>)
    requires opts.untrusted && st.error.None? && After(dest, prefix, opts, st, es).error.None?
    ensures After(dest, prefix, opts, st, es).entries == st.entries + CountOf(prefix, es)
    ensures After(dest, prefix, opts, st, es).total == st.total + BytesOf(opts, prefix, es)
    ensures After(dest, prefix, opts, st, es).written == st.written + BytesOf(opts, prefix, es)
  {
    if es != [] {
      var init := es[..|es| - 1];
      SuccessCounts(dest, prefix, opts, st, init);
      EntryStored(dest, prefix, opts, After(dest, prefix, opts, st, init), es[|es| - 1]);
    }
  }

  predicate WithinCaps(opts: Options, st: State) {
    && (opts.limits.maxEntries > 0 ==> st.entries <= opts.limits.maxEntries)
    && (opts.limits.maxTotalBytes > 0 ==> st.total <= opts.limits.maxTotalBytes)
  }

  lemma {:induction false} SuccessAdmits(dest: string, prefix: string, opts: Options, st: State, es: seq<Entry>)
    requires opts.untrusted && st.error.None? && WithinCaps(opts, st) && After(dest, prefix, opts, st, es).error.None?
    ensures WithinCaps(opts, After(dest, prefix, opts, st, es)) && AllAdmitted(opts, prefix, es)
  {
    if es != [] {
      var init, e := es[..|es| - 1], es[|es| - 1];
      SuccessAdmits(dest, prefix, opts, st, init);
      EntryStored(dest, prefix, opts, After(dest, prefix, opts, st, init), e);
      InitAndLast(es);
      OneMoreAdmitted(opts, prefix, init, e);
    }
  }

  predicate AllAdmitted(opts: Options, prefix: string, es: seq<Entry>) {
    forall e | e in es :: Counts(prefix, e) ==> Admitted(opts, e)
  }

  lemma OneMoreAdmitted(opts: Options, prefix: string, es: seq<Entry>, e: Entry)
    requires AllAdmitted(opts, prefix, es) && (Counts(prefix, e) ==> Admitted(opts, e))
    ensures AllAdmitted(opts, prefix, es + [e])
  {
  }

  /** An untrusted extraction that ends without an error kept to the three caps, and wrote what it counted. */
  lemma SuccessWithinLimits(dest: string, prefix: string, opts: Options, st: State, es: seq<Entry>)
    requires opts.untrusted && st.error.None? && st.entries == 0 && st.total == 0
    requires After(dest, prefix, opts, st, es).error.None?
    ensures opts.limits.maxEntries > 0 ==> CountOf(prefix, es) <= opts.limits.maxEntries
    ensures opts.limits.maxTotalBytes > 0 ==> BytesOf(opts, prefix, es) <= opts.limits.maxTotalBytes
    ensures AllAdmitted(opts, prefix, es)
    ensures After(dest, prefix, opts, st, es).written == st.written + BytesOf(opts, prefix, es)
  {
    SuccessCounts(dest, prefix, opts, st, es);
    SuccessAdmits(dest, prefix, opts, st, es);
  }

  /** What the loop keeps: all bytes written are counted until an error, and the last file is capped. */
  predicate Bounded(opts: Options, st: State, before: nat) {
    && before <= st.written
    && (st.error.None? ==> st.written - before == st.total && st.total <= opts.limits.maxTotalBytes)
    && st.written - before <= opts.limits.maxTotalBytes + opts.limits.maxFileBytes + 1
  }

  predicate BothCaps(opts: Options) {
    opts.untrusted && opts.limits.maxFileBytes > 0 && opts.limits.maxTotalBytes > 0
  }

  lemma FileIsBounded(opts: Options, st: State, e: Entry, target: Path, before: nat)
    requires BothCaps(opts) && st.error.None? && Bounded(opts, st, before)
    ensures Bounded(opts, FileStep(opts, st, e, target), before)
  {
    CopiedIsCapped(opts, e);
  }

  lemma EntryIsBounded(dest: string, prefix: string, opts: Options, st: State, e: Entry, before: nat)
    requires BothCaps(opts) && st.error.None? && Bounded(opts, st, before)
    ensures Bounded(opts, EntryStep(dest, prefix, opts, st, e), before)
  {
    var name := TrimPrefix(e.name, prefix);
    if name != "" && Sanitize(dest, name).Some? {
      var target := Sanitize(dest, name).value;
      var made := st.(entries := st.entries + 1, dirs := st.dirs + AndAbove(Parent(target)));
      FileIsBounded(opts, made, e, target, before);
    }
  }

  /** Whatever the outcome, an untrusted extraction with both byte caps writes at most one byte past a whole file past
      the total. */
  lemma {:induction false} WrittenIsBounded(dest: string, prefix: string, opts: Options, st: State, es: seq<Entry>)
    requires BothCaps(opts) && st.error.None? && st.total == 0
    ensures Bounded(opts, After(dest, prefix, opts, st, es), st.written)
  {
    if es != [] {
      var init := es[..|es| - 1];
      WrittenIsBounded(dest, prefix, opts, st, init);
      if After(dest, prefix, opts, st, init).error.None? {
        EntryIsBounded(dest, prefix, opts, After(dest, prefix, opts, st, init), es[|es| - 1], st.written);
      }
    }
  }

  lemma CopiedIsCapped(opts: Options, e: Entry)
    requires FileCapped(opts)
    ensures |Copied(opts, e).0| <= opts.limits.maxFileBytes + 1
  {
  }

  // ---------------------------------------------------------------- contents

  /** The last entry that writes p. */
  function LastWriter(dest: string, prefix: string, es: seq<Entry>, p: Path): Option<Entry> {
    if es == [] then None
    else
      var e := es[|es| - 1];
      if IsFile(prefix, e) && Target(dest, prefix, e) == p then Some(e)
      else LastWriter(dest, prefix, es[..|es| - 1], p)
  }

  ghost predicate Needed(dest: string, prefix: string, es: seq<Entry>, p: Path) {
    exists e | e in es :: Counts(prefix, e) && p in AndAbove(DirOf(dest, prefix, e))
  }

  lemma {:induction false} FilesAreExact(dest: string, prefix: string, opts: Options, st: State, es: seq<Entry>,
                                         p: Path)
    requires st.error.None? && After(dest, prefix, opts, st, es).error.None?
    ensures var end, w := After(dest, prefix, opts, st, es), LastWriter(dest, prefix, es, p);
            && (p in end.files <==> w.Some? || p in st.files)
            && (p in end.files ==> end.files[p] == if w.Some? then Copied(opts, w.value).0 else st.files[p])
  {
    if es != [] {
      var init := es[..|es| - 1];
      FilesAreExact(dest, prefix, opts, st, init, p);
      EntryStored(dest, prefix, opts, After(dest, prefix, opts, st, init), es[|es| - 1]);
    }
  }

  lemma {:induction false} DirsAreExact(dest: string, prefix: string, opts: Options, st: State, es: seq<Entry>, p: Path)
    requires st.error.None? && After(dest, prefix, opts, st, es).error.None?
    ensures p in After(dest, prefix, opts, st, es).dirs <==> p in st.dirs || Needed(dest, prefix, es, p)
  {
    if es != [] {
      var init, e := es[..|es| - 1], es[|es| - 1];
      DirsAreExact(dest, prefix, opts, st, init, p);
      InitAndLast(es);
      EntryStored(dest, prefix, opts, After(dest, prefix, opts, st, init), e);
      assert Needed(dest, prefix, es, p) <==>
             Needed(dest, prefix, init, p) || (Counts(prefix, e) && p in AndAbove(DirOf(dest, prefix, e)));
    }
  }

  /** After a successful extraction every path holds the bytes copied from its last entry, or what it held before, and
      exactly the directories the entries need were made. */
  lemma SuccessIsExact(dest: string, prefix: string, opts: Options, st: State, es: seq<Entry>, p: Path)
    requires st.error.None? && After(dest, prefix, opts, st, es).error.None?
    ensures var end, w := After(dest, prefix, opts, st, es), LastWriter(dest, prefix, es, p);
            && (p in end.files <==> w.Some? || p in st.files)
            && (p in end.files ==> end.files[p] == if w.Some? then Copied(opts, w.value).0 else st.files[p])
            && (p in end.dirs <==> p in st.dirs || Needed(dest, prefix, es, p))
  {
    FilesAreExact(dest, prefix, opts, st, es, p);
    DirsAreExact(dest, prefix, opts, st, es, p);
  }

  /** The per-file cap does not leave room for one more byte. */
  predicate CapOverflows(opts: Options) {
    opts.untrusted && opts.limits.maxFileBytes == MAX_INT64
  }

  /** A successful extraction copies every file whole, unless the cap of a file is the largest integer: then the
      reader's limit wraps around and every file comes out empty. */
  lemma SuccessIsWhole(dest: string, prefix: string, opts: Options, st: State, es: seq<Entry>)
    requires st.error.None? && st.entries == 0 && st.total == 0 && After(dest, prefix, opts, st, es).error.None?
    ensures (forall e | e in es && IsFile(prefix, e) :: Copied(opts, e).0 == e.body)
            <==> !CapOverflows(opts) || forall e | e in es && IsFile(prefix, e) :: e.body == []
  {
    if FileCapped(opts) {
      SuccessWithinLimits(dest, prefix, opts, st, es);
    }
    forall e | e in es && IsFile(prefix, e) ensures Copied(opts, e).0 == if CapOverflows(opts) then [] else e.body {
      assert FileCapped(opts) ==> Admitted(opts, e);
      CopiedIsWhole(opts, e);
    }
  }

  lemma CopiedIsWhole(opts: Options, e: Entry)
    requires FileCapped(opts) ==> |Copied(opts, e).0| <= opts.limits.maxFileBytes
    ensures Copied(opts, e).0 == if CapOverflows(opts) then [] else e.body
  {
  }

  // ------------------------------------------------------------- containment

  /** Nothing outside the destination is written, whatever the outcome. */
  lemma {:induction false} StaysInDestination(dest: string, prefix: string, opts: Options, st: State, es: seq<Entry>,
                                              p: Path)
    requires !EndsAbove(Clean(dest)) && !Inside(Clean(dest), p)
    ensures p in After(dest, prefix, opts, st, es).files <==> p in st.files
    ensures p in st.files ==> After(dest, prefix, opts, st, es).files[p] == st.files[p]
    ensures p !in AndAbove(Clean(dest)) ==> (p in After(dest, prefix, opts, st, es).dirs <==> p in st.dirs)
  {
    if es != [] {
      var init := es[..|es| - 1];
      StaysInDestination(dest, prefix, opts, st, init, p);
      EntryStaysInside(dest, prefix, opts, After(dest, prefix, opts, st, init), es[|es| - 1], p);
    }
  }

  ghost predicate SameAt(a: State, b: State, p: Path) {
    (p in b.files <==> p in a.files) && (p in a.files ==> b.files[p] == a.files[p])
  }

  lemma FileTouches(opts: Options, st: State, e: Entry, target: Path, p: Path)
    requires p != target
    ensures SameAt(st, FileStep(opts, st, e, target), p) && FileStep(opts, st, e, target).dirs == st.dirs
  {
  }

  /** An entry touches its target, and makes directories above it. */
  lemma EntryTouches(dest: string, prefix: string, opts: Options, st: State, e: Entry, p: Path)
    requires p != Target(dest, prefix, e) && p !in AndAbove(DirOf(dest, prefix, e))
    ensures SameAt(st, EntryStep(dest, prefix, opts, st, e), p)
    ensures p in EntryStep(dest, prefix, opts, st, e).dirs <==> p in st.dirs
  {
    var target, dir := Target(dest, prefix, e), DirOf(dest, prefix, e);
    var on := if opts.untrusted then st.(entries := st.entries + 1) else st;
    FileTouches(opts, on.(dirs := on.dirs + AndAbove(dir)), e, target, p);
    assert forall n: nat :: p !in Levels(dir, n);
  }

  lemma EntryWrites(dest: string, prefix: string, opts: Options, st: State, e: Entry, p: Path)
    requires p != Target(dest, prefix, e)
    ensures SameAt(st, EntryStep(dest, prefix, opts, st, e), p)
  {
    var on := if opts.untrusted then st.(entries := st.entries + 1) else st;
    FileTouches(opts, on.(dirs := on.dirs + AndAbove(DirOf(dest, prefix, e))), e, Target(dest, prefix, e), p);
  }

  lemma EntryStaysInside(dest: string, prefix: string, opts: Options, st: State, e: Entry, p: Path)
    requires !EndsAbove(Clean(dest)) && !Inside(Clean(dest), p)
    ensures SameAt(st, EntryStep(dest, prefix, opts, st, e), p)
    ensures p !in AndAbove(Clean(dest)) ==> (p in EntryStep(dest, prefix, opts, st, e).dirs <==> p in st.dirs)
  {
    var name, target, dir := TrimPrefix(e.name, prefix), Target(dest, prefix, e), DirOf(dest, prefix, e);
    if name != "" && Sanitize(dest, name).Some? {
      AcceptedInside(dest, name);
      assert p != target;
      EntryWrites(dest, prefix, opts, st, e, p);
      if p !in AndAbove(Clean(dest)) {
        NotAbove(Clean(dest), target, dir, p);
        EntryTouches(dest, prefix, opts, st, e, p);
      }
    }
  }

  lemma NotAbove(d: Path, target: Path, dir: Path, p: Path)
    requires Inside(d, target) && (dir == target || dir == Parent(target)) && !Inside(d, p) && p !in AndAbove(d)
    ensures p !in AndAbove(dir)
  {
    if p in AndAbove(dir) {
      if dir != target { AboveParent(target, p); }
      AboveInside(d, target, p);
    }
  }

  /** What is above a path inside the destination is inside it, or above it. */
  lemma AboveInside(d: Path, p: Path, q: Path)
    requires Inside(d, p) && q in AndAbove(p)
    ensures Inside(d, q) || q in AndAbove(d)
  {
    var i: nat :| i <= |p.parts| && q == Path(p.rooted, p.parts[..i]);
    if i < |d.parts| {
      assert p.parts[..i] == d.parts[..i];
    } else {
      assert d.parts <= p.parts[..i];
    }
  }

  lemma AboveParent(p: Path, q: Path)
    requires q in AndAbove(Parent(p))
    ensures q in AndAbove(p)
  {
    if p.parts != [] {
      var i: nat :| i <= |p.parts| - 1 && q == Path(p.rooted, Parent(p).parts[..i]);
      assert Parent(p).parts[..i] == p.parts[..i];
    }
  }

  /** Extract as a whole, on every outcome: an untrusted archive with both byte caps writes a bounded number of bytes,
      all of them below a destination that does not end in "..", and a successful one kept to every cap. */
  lemma ExtractIsSafe(dest: string, opts: Options, st: State, es: seq<Entry>, destFault: Option<nat>)
    requires opts.untrusted && st.error.None? && st.entries == 0 && st.total == 0
    ensures var end := Extracted(dest, opts, st, es, destFault);
            && (opts.limits.maxFileBytes > 0 && opts.limits.maxTotalBytes > 0 ==>
                  end.written - st.written <= opts.limits.maxTotalBytes + opts.limits.maxFileBytes + 1)
            && (!EndsAbove(Clean(dest)) ==> forall p | p in end.files && !Inside(Clean(dest), p) ::
                  p in st.files && end.files[p] == st.files[p])
            && (end.error.None? ==>
                  && (opts.limits.maxTotalBytes > 0 ==> end.written - st.written <= opts.limits.maxTotalBytes)
                  && (opts.limits.maxEntries > 0 ==>
                      CountOf(ResolvePrefix(opts, NamesOf(es)).value, es) <= opts.limits.maxEntries)
                  && forall e | e in es :: Counts(ResolvePrefix(opts, NamesOf(es)).value, e) ==> Admitted(opts, e))
  {
    var made := st.(dirs := st.dirs + AndAbove(Clean(dest)));
    var prefix := ResolvePrefix(opts, NamesOf(es));
    if destFault.None? && prefix.Some? {
      var end := After(dest, prefix.value, opts, made, es);
      if BothCaps(opts) {
        WrittenIsBounded(dest, prefix.value, opts, made, es);
      }
      if !EndsAbove(Clean(dest)) {
        forall p | p in end.files && !Inside(Clean(dest), p) ensures p in st.files && end.files[p] == st.files[p] {
          StaysInDestination(dest, prefix.value, opts, made, es, p);
        }
      }
      if end.error.None? {
        SuccessWithinLimits(dest, prefix.value, opts, made, es);
      }
    }
  }
}
