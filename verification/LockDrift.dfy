/** checkLockDrift: does bino.lock still reflect the declarations of bino.toml? */
module LockDrift {
  import opened Text
  import opened Packages
  import opened Lockfiles

  datatype Drift =
    | FormatMissing(name: string)
    | NotLocked(name: string)
    | OtherVersion(name: string)
    | OtherTag(name: string)
    | NotDeclared(name: string)

  function EffectiveRef(ref: string): string {
    if ref == "" then "latest" else ref
  }

  /** The locked entry is what the declared reference asks for. */
  predicate Follows(isPin: string -> bool, ref: string, e: Entry) {
    if isPin(EffectiveRef(ref)) then e.version == EffectiveRef(ref) else e.tag == EffectiveRef(ref)
  }

  /** A declaration without a reference follows the tag "latest". */
  lemma EmptyFollowsLatest(isPin: string -> bool, e: Entry)
    ensures Follows(isPin, "", e) <==> Follows(isPin, "latest", e)
    ensures !isPin("latest") ==> (Follows(isPin, "", e) <==> e.tag == "latest")
  {
  }

  /** The declaration of name is met by a direct entry. */
  predicate Honoured(isPin: string -> bool, deps: map<string, string>, lock: seq<Entry>, name: string)
    requires name in deps
  {
    var e := Get(lock, name);
    e.Some? && e.value.direct && Follows(isPin, deps[name], e.value)
  }

  function DirectNames(lock: seq<Entry>): set<string> {
    set e | e in lock && e.direct :: e.name
  }

  /** Every entry has a format, and declarations and direct entries are the same names with agreeing references. */
  ghost predicate DriftFree(isPin: string -> bool, deps: map<string, string>, lock: seq<Entry>) {
    && (forall e | e in lock :: e.format != NoFormat)
    && (forall name | name in deps :: Honoured(isPin, deps, lock, name))
    && DirectNames(lock) <= deps.Keys
  }

  /** The reported drift is a real one. */
  ghost predicate Justified(isPin: string -> bool, deps: map<string, string>, lock: seq<Entry>, d: Drift) {
    match d
    case FormatMissing(n) => exists e :: e in lock && e.name == n && e.format == NoFormat
    case NotLocked(n) => n in deps && (Get(lock, n).None? || !Get(lock, n).value.direct)
    case OtherVersion(n) => n in deps && Get(lock, n).Some? && isPin(EffectiveRef(deps[n]))
                            && Get(lock, n).value.version != EffectiveRef(deps[n])
    case OtherTag(n) => n in deps && Get(lock, n).Some? && !isPin(EffectiveRef(deps[n]))
                        && Get(lock, n).value.tag != EffectiveRef(deps[n])
    case NotDeclared(n) => n !in deps && n in DirectNames(lock)
  }

  /** The declarations are visited in no particular order, as a Go map is. */
  method CheckLockDrift(isPin: string -> bool, deps: map<string, string>, lock: seq<Entry>)
    returns (drift: Option<Drift>)
    ensures drift.None? <==> DriftFree(isPin, deps, lock)
    ensures drift.Some? ==> Justified(isPin, deps, lock, drift.value)
  {
    var direct: set<string> := {};
    for i := 0 to |lock|
      invariant direct == DirectNames(lock[..i])
      invariant forall e | e in lock[..i] :: e.format != NoFormat
    {
      assert lock[..i + 1] == lock[..i] + [lock[i]];
      if lock[i].direct {
        direct := direct + {lock[i].name};
      }
      if lock[i].format == NoFormat {
        assert lock[i] in lock;
        return Some(FormatMissing(lock[i].name));
      }
    }
    assert lock[..|lock|] == lock;
    var todo := deps.Keys;
    while todo != {}
      invariant todo <= deps.Keys
      invariant forall name | name in deps && name !in todo :: Honoured(isPin, deps, lock, name)
      invariant direct == DirectNames(lock) - (deps.Keys - todo)
    {
      var name :| name in todo;
      var e := Get(lock, name);
      if e.None? || !e.value.direct {
        assert !Honoured(isPin, deps, lock, name);
        return Some(NotLocked(name));
      }
      var ref := EffectiveRef(deps[name]);
      if isPin(ref) {
        if e.value.version != ref {
          assert !Honoured(isPin, deps, lock, name);
          return Some(OtherVersion(name));
        }
      } else if e.value.tag != ref {
        assert !Honoured(isPin, deps, lock, name);
        return Some(OtherTag(name));
      }
      direct := direct - {name};
      todo := todo - {name};
    }
    if direct != {} {
      var name :| name in direct;
      return Some(NotDeclared(name));
    }
    return None;
  }
}
