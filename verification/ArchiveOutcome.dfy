/** When an extraction succeeds, and which entry ends one that does not, with which error. */
module ArchiveOutcome {
  import opened Text
  import opened Sequences
  import opened ArchivePaths
  import opened ArchiveExtract

  // ------------------------------------------------------------- one entry

  /** The name of an entry is stripped of the prefix, if it has it. */
  lemma StrippedName(prefix: string, rest: string, name: string)
    ensures TrimPrefix(prefix + rest, prefix) == rest
    ensures !(prefix <= name) ==> TrimPrefix(name, prefix) == name
    ensures TrimPrefix(name, prefix) == "" <==> name == "" || name == prefix
  {
    assert prefix <= prefix + rest;
    if prefix <= name {
      assert name == prefix + name[|prefix|..];
    }
  }

  /** The stripped name, joined to the destination, goes on from its parts. */
  predicate Fits(dest: string, prefix: string, e: Entry) {
    Extends(Clean(dest), JoinPaths(dest, TrimPrefix(e.name, prefix)))
  }

  predicate FileLimited(opts: Options) {
    opts.untrusted && opts.limits.maxFileBytes > 0
  }

  /** The reader gets one byte more than the cap; for the largest integer there is no such limit, and it gets
      nothing. */
  predicate ReadsNothing(opts: Options) {
    FileLimited(opts) && opts.limits.maxFileBytes == 0x7FFF_FFFF_FFFF_FFFF
  }

  predicate OverFileCap(opts: Options, e: Entry) {
    FileLimited(opts) && !ReadsNothing(opts) && |e.body| > opts.limits.maxFileBytes
  }

  /** A read error at the end of the body shows unless the reader stops before. */
  predicate ReadFails(opts: Options, e: Entry) {
    e.faults.read && !ReadsNothing(opts) && !OverFileCap(opts, e)
  }

  /** The bytes of a file that is extracted without an error. */
  function Size(opts: Options, e: Entry): nat {
    if e.kind == Directory || ReadsNothing(opts) then 0 else |e.body|
  }

  predicate OverEntryCap(opts: Options, entries: nat) {
    opts.untrusted && opts.limits.maxEntries > 0 && entries > opts.limits.maxEntries
  }

  predicate OverTotalCap(opts: Options, total: nat) {
    opts.untrusted && opts.limits.maxTotalBytes > 0 && total > opts.limits.maxTotalBytes
  }

  /** A directory or file that is extracted without an error of its own. */
  predicate Passes(dest: string, prefix: string, opts: Options, e: Entry) {
    && !(opts.untrusted && e.kind == Other) && Fits(dest, prefix, e) && e.faults.mkdir.None?
    && (e.kind != Directory ==>
          && !(opts.untrusted && e.faults.parent) && !e.faults.open && !e.faults.close
          && !ReadFails(opts, e) && !OverFileCap(opts, e))
  }

  /** Why an entry, the entries-th one, after this total of bytes, ends the extraction. */
  predicate Gives(dest: string, prefix: string, opts: Options, e: Entry, entries: nat, total: nat, x: Error) {
    var admitted := !OverEntryCap(opts, entries) && !(opts.untrusted && e.kind == Other);
    var placed := admitted && Fits(dest, prefix, e) && e.faults.mkdir.None?;
    var reached := placed && e.kind != Directory && !(opts.untrusted && e.faults.parent) && !e.faults.open;
    match x
    case TooManyFiles => OverEntryCap(opts, entries)
    case Symlink => !OverEntryCap(opts, entries) && opts.untrusted && e.kind == Other
    case InvalidPath =>
      || (admitted && !Fits(dest, prefix, e))
      || (placed && e.kind != Directory && opts.untrusted && e.faults.parent)
    case Io =>
      || (admitted && Fits(dest, prefix, e) && e.faults.mkdir.Some?)
      || (placed && e.kind != Directory && !(opts.untrusted && e.faults.parent) && e.faults.open)
      || (reached && (ReadFails(opts, e) || (e.faults.close && !OverFileCap(opts, e))))
    case FileTooBig => reached && OverFileCap(opts, e)
    case ArchiveTooBig =>
      !OverEntryCap(opts, entries) && Passes(dest, prefix, opts, e) && e.kind != Directory
      && OverTotalCap(opts, total + Size(opts, e))
    case UnknownStrip => false
  }

  lemma FileGives(opts: Options, e: Entry)
    ensures FileError(opts, e) ==
              if ReadFails(opts, e) then Some(Io)
              else if OverFileCap(opts, e) then Some(FileTooBig)
              else if e.faults.close then Some(Io)
              else None
    ensures FileError(opts, e).None? && e.kind != Directory ==> |Copied(opts, e).0| == Size(opts, e)
  {
  }

  /** What a file is given to go on with: its entry is counted, and its directory is made. */
  function Before(dest: string, prefix: string, opts: Options, st: State, e: Entry): State {
    st.(entries := if opts.untrusted then st.entries + 1 else st.entries,
        dirs := st.dirs + AndAbove(Parent(JoinPaths(dest, TrimPrefix(e.name, prefix)))))
  }

  lemma FileStepGives(opts: Options, st: State, e: Entry, target: Path)
    requires st.error.None? && e.kind != Directory
    ensures FileStep(opts, st, e, target).error ==
              if e.faults.open then Some(Io)
              else if FileError(opts, e).Some? then FileError(opts, e)
              else if OverTotalCap(opts, st.total + Size(opts, e)) then Some(ArchiveTooBig)
              else None
  {
    FileGives(opts, e);
  }

  lemma RoundGives(dest: string, prefix: string, opts: Options, st: State, e: Entry)
    requires st.error.None? && IsCounted(prefix, e)
    ensures EntryStep(dest, prefix, opts, st, e).error ==
              if OverEntryCap(opts, st.entries + 1) then Some(TooManyFiles)
              else if opts.untrusted && e.kind == Other then Some(Symlink)
              else if !Fits(dest, prefix, e) then Some(InvalidPath)
              else if e.faults.mkdir.Some? then Some(Io)
              else if e.kind == Directory then None
              else if opts.untrusted && e.faults.parent then Some(InvalidPath)
              else
                var target := JoinPaths(dest, TrimPrefix(e.name, prefix));
                FileStep(opts, Before(dest, prefix, opts, st, e), e, target).error
  {
    StrippedName(prefix, "", e.name);
    SanitizeIsExact(dest, TrimPrefix(e.name, prefix));
  }

  predicate IsCounted(prefix: string, e: Entry) {
    e.name != "" && e.name != prefix
  }

  lemma NotCounted(dest: string, prefix: string, opts: Options, st: State, e: Entry)
    requires !IsCounted(prefix, e)
    ensures EntryStep(dest, prefix, opts, st, e) == st
  {
    StrippedName(prefix, "", e.name);
  }

  /** One round ends the loop with an error exactly as told. */
  lemma EntryGives(dest: string, prefix: string, opts: Options, st: State, e: Entry, x: Error)
    requires st.error.None?
    ensures EntryStep(dest, prefix, opts, st, e).error == Some(x) <==>
              IsCounted(prefix, e) && Gives(dest, prefix, opts, e, st.entries + 1, st.total, x)
  {
    if IsCounted(prefix, e) {
      RoundGives(dest, prefix, opts, st, e);
      FileGives(opts, e);
      if e.kind != Directory {
        FileStepGives(opts, Before(dest, prefix, opts, st, e), e, JoinPaths(dest, TrimPrefix(e.name, prefix)));
      }
    } else {
      NotCounted(dest, prefix, opts, st, e);
    }
  }

  lemma EntryPasses(dest: string, prefix: string, opts: Options, st: State, e: Entry)
    requires st.error.None?
    ensures EntryStep(dest, prefix, opts, st, e).error.None? <==>
              (IsCounted(prefix, e) ==>
                 && !OverEntryCap(opts, st.entries + 1) && Passes(dest, prefix, opts, e)
                 && (e.kind != Directory ==> !OverTotalCap(opts, st.total + Size(opts, e))))
  {
    if IsCounted(prefix, e) {
      RoundGives(dest, prefix, opts, st, e);
      FileGives(opts, e);
      if e.kind != Directory {
        FileStepGives(opts, Before(dest, prefix, opts, st, e), e, JoinPaths(dest, TrimPrefix(e.name, prefix)));
      }
    } else {
      NotCounted(dest, prefix, opts, st, e);
    }
  }

  // ------------------------------------------------------------ the whole run

  ghost function CountIn(prefix: string, es: seq<Entry>): nat {
    |set i | 0 <= i < |es| && IsCounted(prefix, es[i])|
  }

  function TotalIn(opts: Options, prefix: string, es: seq<Entry>): nat {
    if es == [] then 0
    else
      TotalIn(opts, prefix, es[..|es| - 1]) + if IsCounted(prefix, es[|es| - 1]) then Size(opts, es[|es| - 1]) else 0
  }

  ghost predicate AllPass(dest: string, prefix: string, opts: Options, es: seq<Entry>) {
    forall e | e in es && IsCounted(prefix, e) :: Passes(dest, prefix, opts, e)
  }

  lemma AllPassMore(dest: string, prefix: string, opts: Options, init: seq<Entry>, e: Entry)
    ensures AllPass(dest, prefix, opts, init + [e]) <==>
              AllPass(dest, prefix, opts, init) && (IsCounted(prefix, e) ==> Passes(dest, prefix, opts, e))
  {
    assert forall x :: x in init + [e] <==> x in init || x == e;
  }

  /** Every entry passes, and all of them keep to the caps. */
  ghost predicate Accepted(dest: string, prefix: string, opts: Options, es: seq<Entry>) {
    && AllPass(dest, prefix, opts, es)
    && !OverEntryCap(opts, CountIn(prefix, es)) && !OverTotalCap(opts, TotalIn(opts, prefix, es))
  }

  lemma CountMore(prefix: string, init: seq<Entry>, e: Entry)
    ensures CountIn(prefix, init + [e]) == CountIn(prefix, init) + if IsCounted(prefix, e) then 1 else 0
  {
    var es := init + [e];
    var a := set i | 0 <= i < |init| && IsCounted(prefix, init[i]);
    var b := set i | 0 <= i < |es| && IsCounted(prefix, es[i]);
    assert forall i | 0 <= i < |init| :: es[i] == init[i];
    assert b == if IsCounted(prefix, e) then a + {|init|} else a;
  }

  lemma AcceptedMore(dest: string, prefix: string, opts: Options, init: seq<Entry>, e: Entry)
    ensures Accepted(dest, prefix, opts, init + [e]) <==>
              && Accepted(dest, prefix, opts, init)
              && (IsCounted(prefix, e) ==>
                    && Passes(dest, prefix, opts, e) && !OverEntryCap(opts, CountIn(prefix, init) + 1)
                    && !OverTotalCap(opts, TotalIn(opts, prefix, init) + Size(opts, e)))
  {
    AllPassMore(dest, prefix, opts, init, e);
    CountMore(prefix, init, e);
    InitOfAppended(init, e);
  }

  /** The counters of the loop after these entries. */
  ghost predicate Tally(opts: Options, prefix: string, st: State, es: seq<Entry>) {
    opts.untrusted ==> st.entries == CountIn(prefix, es) && st.total == TotalIn(opts, prefix, es)
  }

  /** The loop ends without an error if and only if the entries are accepted, and it has counted them then. */
  lemma {:induction false} LoopSucceedsIff(dest: string, prefix: string, opts: Options, st: State, es: seq<Entry>)
    requires st.error.None? && st.entries == 0 && st.total == 0
    ensures After(dest, prefix, opts, st, es).error.None? <==> Accepted(dest, prefix, opts, es)
    ensures After(dest, prefix, opts, st, es).error.None? ==> Tally(opts, prefix, After(dest, prefix, opts, st, es), es)
  {
    if es != [] {
      var init, e := es[..|es| - 1], es[|es| - 1];
      LoopSucceedsIff(dest, prefix, opts, st, init);
      InitAndLast(es);
      AcceptedMore(dest, prefix, opts, init, e);
      var now := After(dest, prefix, opts, st, init);
      if now.error.None? { OneMoreRound(dest, prefix, opts, now, init, e); }
    }
  }

  lemma OneMoreRound(dest: string, prefix: string, opts: Options, now: State, init: seq<Entry>, e: Entry)
    requires now.error.None? && Tally(opts, prefix, now, init)
    ensures EntryStep(dest, prefix, opts, now, e).error.None? <==>
              (IsCounted(prefix, e) ==>
                 && Passes(dest, prefix, opts, e) && !OverEntryCap(opts, CountIn(prefix, init) + 1)
                 && (e.kind != Directory ==> !OverTotalCap(opts, TotalIn(opts, prefix, init) + Size(opts, e))))
    ensures EntryStep(dest, prefix, opts, now, e).error.None? ==>
              Tally(opts, prefix, EntryStep(dest, prefix, opts, now, e), init + [e])
  {
    EntryPasses(dest, prefix, opts, now, e);
    CountMore(prefix, init, e);
    InitOfAppended(init, e);
    if EntryStep(dest, prefix, opts, now, e).error.None? && opts.untrusted {
      EntryCounts(dest, prefix, opts, now, e);
    }
  }

  lemma EntryCounts(dest: string, prefix: string, opts: Options, st: State, e: Entry)
    requires st.error.None? && EntryStep(dest, prefix, opts, st, e).error.None? && opts.untrusted
    ensures EntryStep(dest, prefix, opts, st, e).entries == st.entries + if IsCounted(prefix, e) then 1 else 0
    ensures EntryStep(dest, prefix, opts, st, e).total == st.total + if IsCounted(prefix, e) then Size(opts, e) else 0
  {
    if IsCounted(prefix, e) {
      StrippedName(prefix, "", e.name);
      RoundGives(dest, prefix, opts, st, e);
      EntryStored(dest, prefix, opts, st, e);
      if e.kind != Directory {
        FileStepGives(opts, Before(dest, prefix, opts, st, e), e, JoinPaths(dest, TrimPrefix(e.name, prefix)));
        FileGives(opts, e);
      }
    } else {
      NotCounted(dest, prefix, opts, st, e);
    }
  }

  /** The loop ends with an error if and only if the entries before some one are accepted, and that one gives it. */
  lemma LoopFailsIff(dest: string, prefix: string, opts: Options, st: State, es: seq<Entry>, x: Error)
    requires st.error.None? && st.entries == 0 && st.total == 0
    ensures After(dest, prefix, opts, st, es).error == Some(x) <==> FailsIn(dest, prefix, opts, es, x)
  {
    if After(dest, prefix, opts, st, es).error == Some(x) {
      var i := FirstFailure(dest, prefix, opts, st, es, x);
    }
    if i :| 0 <= i < |es| && FailsAt(dest, prefix, opts, es, i, x) {
      FailureEnds(dest, prefix, opts, st, es, i, x);
    }
  }

  ghost predicate FailsIn(dest: string, prefix: string, opts: Options, es: seq<Entry>, x: Error) {
    exists i | 0 <= i < |es| :: FailsAt(dest, prefix, opts, es, i, x)
  }

  ghost predicate FailsAt(dest: string, prefix: string, opts: Options, es: seq<Entry>, i: nat, x: Error)
    requires i < |es|
  {
    && Accepted(dest, prefix, opts, es[..i]) && IsCounted(prefix, es[i])
    && Gives(dest, prefix, opts, es[i], CountIn(prefix, es[..i]) + 1, TotalIn(opts, prefix, es[..i]), x)
  }

  lemma {:induction false} FirstFailure(dest: string, prefix: string, opts: Options, st: State, es: seq<Entry>,
                                        x: Error)
    returns (i: nat)
    requires st.error.None? && st.entries == 0 && st.total == 0 && After(dest, prefix, opts, st, es).error == Some(x)
    ensures i < |es| && FailsAt(dest, prefix, opts, es, i, x)
  {
    var init := es[..|es| - 1];
    if After(dest, prefix, opts, st, init).error.Some? {
      i := FirstFailure(dest, prefix, opts, st, init, x);
      assert init[..i] == es[..i];
    } else {
      i := |es| - 1;
      LoopSucceedsIff(dest, prefix, opts, st, init);
      RoundFailsIff(dest, prefix, opts, After(dest, prefix, opts, st, init), init, es[i], x);
    }
  }

  lemma RoundFailsIff(dest: string, prefix: string, opts: Options, now: State, init: seq<Entry>, e: Entry, x: Error)
    requires now.error.None? && Tally(opts, prefix, now, init)
    ensures EntryStep(dest, prefix, opts, now, e).error == Some(x) <==>
              IsCounted(prefix, e)
              && Gives(dest, prefix, opts, e, CountIn(prefix, init) + 1, TotalIn(opts, prefix, init), x)
  {
    EntryGives(dest, prefix, opts, now, e, x);
  }

  lemma FailureEnds(dest: string, prefix: string, opts: Options, st: State, es: seq<Entry>, i: nat, x: Error)
    requires st.error.None? && st.entries == 0 && st.total == 0 && i < |es| && FailsAt(dest, prefix, opts, es, i, x)
    ensures After(dest, prefix, opts, st, es).error == Some(x)
  {
    LoopSucceedsIff(dest, prefix, opts, st, es[..i]);
    RoundFailsIff(dest, prefix, opts, After(dest, prefix, opts, st, es[..i]), es[..i], es[i], x);
    TakeNext(es, i);
    ErrorStays(dest, prefix, opts, st, es, i + 1);
  }

  /** What is stripped: nothing, the given prefix, or the one directory that all names with a slash begin with. */
  predicate Strips(opts: Options, es: seq<Entry>, prefix: string) {
    match opts.strip
    case StripNone => prefix == ""
    case StripFixed => prefix == opts.fixedPrefix
    case StripAuto => prefix == CommonPrefix(NamesOf(es))
    case Unknown(_) => false
  }

  /** An extraction succeeds if and only if the destination can be made, the strip mode is known, every counted entry
      passes, and all of them keep to the caps. */
  lemma ExtractionSucceedsIff(dest: string, opts: Options, st: State, es: seq<Entry>, destFault: Option<nat>)
    requires st.error.None? && st.entries == 0 && st.total == 0
    ensures Extracted(dest, opts, st, es, destFault).error.None? <==>
              destFault.None? && exists prefix :: Strips(opts, es, prefix) && Accepted(dest, prefix, opts, es)
  {
    var made := st.(dirs := st.dirs + AndAbove(Clean(dest)));
    if destFault.None? && !opts.strip.Unknown? {
      var prefix := ResolvePrefix(opts, NamesOf(es)).value;
      assert Strips(opts, es, prefix);
      LoopSucceedsIff(dest, prefix, opts, made, es);
    }
  }

  /** It fails with an error if and only if the destination, the strip mode or the first entry that is not accepted
      gives it. */
  lemma ExtractionFailsIff(dest: string, opts: Options, st: State, es: seq<Entry>, destFault: Option<nat>, x: Error)
    requires st.error.None? && st.entries == 0 && st.total == 0
    ensures Extracted(dest, opts, st, es, destFault).error == Some(x) <==>
              || (destFault.Some? && x == Io)
              || (destFault.None? && opts.strip.Unknown? && x == UnknownStrip)
              || (destFault.None? && exists prefix :: Strips(opts, es, prefix) && FailsIn(dest, prefix, opts, es, x))
  {
    var made := st.(dirs := st.dirs + AndAbove(Clean(dest)));
    if destFault.None? && !opts.strip.Unknown? {
      var prefix := ResolvePrefix(opts, NamesOf(es)).value;
      assert Strips(opts, es, prefix);
      LoopFailsIff(dest, prefix, opts, made, es, x);
    }
  }
}
