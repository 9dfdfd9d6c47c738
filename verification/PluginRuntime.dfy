/** The runtime that tracks plugin draws, and the settle loop the host waits on before it prints. */
module PluginRuntime {
  import opened Text
  import opened Sequences

  /** The identity of a promise. */
  type Id = nat

  datatype Element = Element(localName: string, id: string)
  datatype Reason = Reason(message: Option<string>, text: string)
  datatype Failure = Failure(tag: string, id: string, message: string)
  datatype Tracked = Tracked(p: Id, element: Option<Element>)

  /** A callback waiting in the queue, or on a promise. The number of the track call tells two callbacks of one promise
      apart. */
  datatype Job =
    | Catch(t: nat, of: Tracked)
    | Finally(t: nat, of: Tracked)
    | Seen(p: Id)
    | Resume

  datatype Promise = Unsettled(reactions: seq<Job>) | Fulfilled | Rejected(reason: Reason)

  /** Where a call of settled() stands. */
  datatype Wait =
    | NotCalled
    | AllSettled(left: set<Id>)
    | Quiet(stage: nat, before: nat)
    | Returned(failures: seq<Failure>)

  datatype State = State(pending: seq<Id>, failures: seq<Failure>, tracked: nat, promises: map<Id, Promise>,
                         queue: seq<Job>, wait: Wait)

  const START := State([], [], 0, map[], [], NotCalled)

  /** What can happen next: scripts track, settle and throw at any time, a job of the queue runs, or a frame or timer
      fires. */
  datatype Step =
    | Track(of: Tracked)
    | Settle(p: Id, outcome: Promise)
    | PageError(path: Option<string>, message: string)
    | Call
    | Job
    | Fire

  // ------------------------------------------------------- promises and jobs

  function Of(promises: map<Id, Promise>, p: Id): Promise {
    if p in promises then promises[p] else Unsettled([])
  }

  /** promise.then: the callback waits on the promise, or is queued when that is settled. */
  function Then(st: State, p: Id, j: Job): State {
    match Of(st.promises, p)
    case Unsettled(rs) => st.(promises := st.promises[p := Unsettled(rs + [j])])
    case _ => st.(queue := st.queue + [j])
  }

  function ThenAll(st: State, ps: seq<Id>): State {
    if ps == [] then st else Then(ThenAll(st, ps[..|ps| - 1]), ps[|ps| - 1], Seen(ps[|ps| - 1]))
  }

  function FailureOf(of: Tracked, reason: Reason): Failure {
    Failure(if of.element.Some? then of.element.value.localName else "",
            if of.element.Some? then of.element.value.id else "",
            if reason.message.Some? && reason.message.value != "" then reason.message.value else reason.text)
  }

  function Added(s: seq<Id>, p: Id): (r: seq<Id>)
    ensures forall x :: x in r <==> x in s || x == p
  {
    if p in s then s else s + [p]
  }

  function Deleted(s: seq<Id>, p: Id): (r: seq<Id>)
    ensures forall x :: x in r <==> x in s && x != p
  {
    if s == [] then [] else if s[0] == p then Deleted(s[1..], p) else [s[0]] + Deleted(s[1..], p)
  }

  // ---------------------------------------------------------------- one step

  function TrackStep(st: State, of: Tracked): State {
    Then(st.(tracked := st.tracked + 1, pending := Added(st.pending, of.p)), of.p, Catch(st.tracked, of))
  }

  function SettleStep(st: State, p: Id, outcome: Promise): State {
    match Of(st.promises, p)
    case Unsettled(rs) =>
      if outcome.Unsettled? then st else st.(promises := st.promises[p := outcome], queue := st.queue + rs)
    case _ => st
  }

  const PLUGINS := "/plugins/"

  function PageFailure(path: Option<string>, message: string): seq<Failure> {
    if path.Some? && PLUGINS <= path.value then [Failure("", "", message + " (" + path.value + ")")] else []
  }

  /** The head of the loop of settled(). */
  function Loop(st: State): State {
    if st.pending != [] then ThenAll(st, st.pending).(wait := AllSettled(set p | p in st.pending))
    else st.(wait := Quiet(0, st.tracked))
  }

  /** settled() goes on after an await. */
  function ResumeStep(st: State): State {
    match st.wait
    case AllSettled(_) => Loop(st)
    case Quiet(stage, before) =>
      if stage < 2 then st.(wait := Quiet(stage + 1, before))
      else if st.tracked == before && st.pending == [] then st.(wait := Returned(st.failures))
      else Loop(st)
    case _ => st
  }

  function JobStep(st: State, j: Job): State {
    match j
    case Catch(t, of) =>
      (match Of(st.promises, of.p)
       case Rejected(reason) =>
         st.(failures := st.failures + [FailureOf(of, reason)], queue := st.queue + [Finally(t, of)])
       case _ => st.(queue := st.queue + [Finally(t, of)]))
    case Finally(t, of) => st.(pending := Deleted(st.pending, of.p))
    case Seen(p) =>
      if st.wait.AllSettled? && p in st.wait.left then
        var left := st.wait.left - {p};
        st.(wait := AllSettled(left), queue := st.queue + if left == {} then [Resume] else [])
      else st
    case Resume => ResumeStep(st)
  }

  /** Frames and timers are tasks: they fire only when the queue of jobs is empty. */
  predicate Enabled(st: State, s: Step) {
    match s
    case Call => st.wait.NotCalled?
    case Job => st.queue != []
    case Fire => st.wait.Quiet? && st.queue == []
    case _ => true
  }

  function Apply(st: State, s: Step): State
    requires Enabled(st, s)
  {
    match s
    case Track(of) => TrackStep(st, of)
    case Settle(p, outcome) => SettleStep(st, p, outcome)
    case PageError(path, message) => st.(failures := st.failures + PageFailure(path, message))
    case Call => Loop(st)
    case Job => JobStep(st.(queue := st.queue[1..]), st.queue[0])
    case Fire => st.(queue := [Resume])
  }

  /** Every step is enabled where it is taken. */
  predicate Legal(steps: seq<Step>)
    decreases |steps|, 0
  {
    steps == [] || (Legal(Init(steps)) && Enabled(Run(Init(steps)), Last(steps)))
  }

  function Run(steps: seq<Step>): State
    requires Legal(steps)
    decreases |steps|, 1
  {
    if steps == [] then START else Apply(Run(Init(steps)), Last(steps))
  }

  function Init(steps: seq<Step>): seq<Step>
    requires steps != []
  {
    steps[..|steps| - 1]
  }

  function Last(steps: seq<Step>): Step
    requires steps != []
  {
    steps[|steps| - 1]
  }

  /** The track calls of a run, in order. */
  function Log(steps: seq<Step>): (r: seq<Tracked>) {
    if steps == [] then [] else Log(Init(steps)) + if Last(steps).Track? then [Last(steps).of] else []
  }

  /** The plugin errors the page raised. */
  function Errors(steps: seq<Step>): seq<Failure> {
    if steps == [] then []
    else Errors(Init(steps)) + if Last(steps).PageError? then PageFailure(Last(steps).path, Last(steps).message) else []
  }

  function Fires(steps: seq<Step>): nat {
    if steps == [] then 0 else Fires(Init(steps)) + if Last(steps).Fire? then 1 else 0
  }

  // -------------------------------------------------------------- invariant

  function Count(q: seq<Job>, j: Job): nat {
    multiset(q)[j]
  }

  function Work(q: seq<Job>, t: nat, of: Tracked): nat {
    Count(q, Catch(t, of)) + Count(q, Finally(t, of))
  }

  /** A job that the calls of log can have brought about. */
  predicate FromLog(j: Job, log: seq<Tracked>) {
    (j.Catch? || j.Finally?) ==> j.t < |log| && log[j.t] == j.of
  }

  predicate Reaction(j: Job, p: Id, log: seq<Tracked>) {
    (j.Catch? && j.of.p == p && FromLog(j, log)) || j == Seen(p)
  }

  predicate Waiting(promises: map<Id, Promise>, p: Id) {
    Of(promises, p).Unsettled?
  }

  /** Where the callbacks of one track call are: on the unsettled promise, or at most once in the queue. */
  predicate Placed(st: State, t: nat, of: Tracked) {
    match Of(st.promises, of.p)
    case Unsettled(rs) => Count(rs, Catch(t, of)) == 1 && Work(st.queue, t, of) == 0
    case _ => Work(st.queue, t, of) <= 1
  }

  ghost predicate JobsOk(st: State, log: seq<Tracked>) {
    && |log| == st.tracked
    && (forall j | j in st.queue :: FromLog(j, log))
    && (forall p | Waiting(st.promises, p) :: ReactionsOk(Of(st.promises, p).reactions, p, log))
    && (forall t | 0 <= t < |log| :: Placed(st, t, log[t]))
  }

  ghost predicate ReactionsOk(rs: seq<Job>, p: Id, log: seq<Tracked>) {
    forall j | j in rs :: Reaction(j, p, log)
  }

  /** A track call that has not deleted its promise yet. */
  predicate Live(st: State, t: nat, of: Tracked) {
    Waiting(st.promises, of.p) || Work(st.queue, t, of) == 1
  }

  ghost predicate PendingOk(st: State, log: seq<Tracked>) {
    && (forall t | 0 <= t < |log| :: Waiting(st.promises, log[t].p) ==> log[t].p in st.pending)
    && (forall p | p in st.pending :: LiveFor(st, log, p))
  }

  ghost predicate LiveFor(st: State, log: seq<Tracked>, p: Id) {
    exists t | 0 <= t < |log| :: log[t].p == p && Live(st, t, log[t])
  }

  /** The rejection of this track call is among the failures. */
  predicate Reported(st: State, t: nat, of: Tracked) {
    Of(st.promises, of.p).Rejected? && Count(st.queue, Catch(t, of)) == 0
  }

  function Due(st: State, log: seq<Tracked>, n: nat): multiset<Failure>
    requires n <= |log|
  {
    if n == 0 then multiset{}
    else Due(st, log, n - 1) + if Reported(st, n - 1, log[n - 1])
                               then multiset{FailureOf(log[n - 1], Of(st.promises, log[n - 1].p).reason)}
                               else multiset{}
  }

  ghost predicate FailuresOk(st: State, log: seq<Tracked>, errors: seq<Failure>) {
    multiset(st.failures) == multiset(errors) + Due(st, log, |log|)
  }

  /** A promise the wait has not seen will still wake it. */
  predicate Wakes(st: State, p: Id) {
    match Of(st.promises, p)
    case Unsettled(rs) => Seen(p) in rs
    case _ => Seen(p) in st.queue
  }

  ghost predicate WaitOk(st: State) {
    && Count(st.queue, Resume) <= 1
    && match st.wait
       case AllSettled(left) =>
         && (Resume in st.queue <==> left == {})
         && (forall p | p in left :: Wakes(st, p))
       case Quiet(stage, before) =>
         && stage <= 2 && before <= st.tracked
         && (Resume in st.queue ==> st.queue[0] == Resume && AllUnhandled(st, before))
       case _ => Resume !in st.queue
  }

  /** A callback still queued after a timer fired belongs to a promise that settled since, or to a later track call. */
  predicate Unhandled(j: Job, pending: seq<Id>, before: nat) {
    j.Catch? && j.t < before ==> j.of.p in pending
  }

  ghost predicate AllUnhandled(st: State, before: nat) {
    forall j | j in st.queue :: Unhandled(j, st.pending, before)
  }

  ghost predicate Core(st: State, log: seq<Tracked>, errors: seq<Failure>) {
    JobsOk(st, log) && PendingOk(st, log) && FailuresOk(st, log, errors)
  }

  ghost predicate Inv(st: State, log: seq<Tracked>, errors: seq<Failure>) {
    Core(st, log, errors) && WaitOk(st)
  }

  // ------------------------------------------------------------ Core is kept

  lemma {:induction false} DueSame(a: State, b: State, log: seq<Tracked>, n: nat)
    requires n <= |log|
    requires forall t | 0 <= t < n :: Reported(a, t, log[t]) == Reported(b, t, log[t])
    requires forall p | Of(a.promises, p).Rejected? :: Of(b.promises, p) == Of(a.promises, p)
    ensures Due(a, log, n) == Due(b, log, n)
  {
    if n > 0 {
      DueSame(a, b, log, n - 1);
    }
  }

  lemma {:induction false} DueOfLonger(st: State, log: seq<Tracked>, more: seq<Tracked>, n: nat)
    requires n <= |log|
    ensures Due(st, log + more, n) == Due(st, log, n)
  {
    if n > 0 {
      DueOfLonger(st, log, more, n - 1);
    }
  }

  lemma {:induction false} DueOneMore(a: State, b: State, log: seq<Tracked>, n: nat, t: nat)
    requires t < n <= |log| && a.promises == b.promises
    requires !Reported(a, t, log[t]) && Reported(b, t, log[t])
    requires forall i | 0 <= i < n && i != t :: Reported(a, i, log[i]) == Reported(b, i, log[i])
    ensures Due(b, log, n) == Due(a, log, n) + multiset{FailureOf(log[t], Of(b.promises, log[t].p).reason)}
  {
    if n - 1 == t {
      DueSame(a, b, log, n - 1);
    } else {
      DueOneMore(a, b, log, n - 1, t);
    }
  }

  /** The callbacks of every track call are where they were. */
  ghost predicate SameWork(a: State, b: State) {
    && a.tracked == b.tracked && a.pending == b.pending && a.failures == b.failures
    && (forall p :: SamePromise(a, b, p))
    && (forall t: nat, of :: Count(a.queue, Catch(t, of)) == Count(b.queue, Catch(t, of)))
    && (forall t: nat, of :: Count(a.queue, Finally(t, of)) == Count(b.queue, Finally(t, of)))
  }

  ghost predicate SamePromise(a: State, b: State, p: Id) {
    && (Waiting(a.promises, p) <==> Waiting(b.promises, p))
    && (!Waiting(a.promises, p) ==> Of(a.promises, p) == Of(b.promises, p))
    && (Waiting(a.promises, p) ==>
          forall t: nat, of :: Count(Of(a.promises, p).reactions, Catch(t, of)) ==
              Count(Of(b.promises, p).reactions, Catch(t, of)))
  }

  lemma CoreSame(a: State, b: State, log: seq<Tracked>, errors: seq<Failure>)
    requires Core(a, log, errors) && SameWork(a, b)
    requires forall j | j in b.queue :: FromLog(j, log)
    requires forall p | Waiting(b.promises, p) :: ReactionsOk(Of(b.promises, p).reactions, p, log)
    ensures Core(b, log, errors)
  {
    forall t | 0 <= t < |log| ensures Placed(b, t, log[t]) {
      assert Placed(a, t, log[t]) && SamePromise(a, b, log[t].p);
    }
    forall t | 0 <= t < |log| ensures Waiting(b.promises, log[t].p) ==> log[t].p in b.pending {
      assert SamePromise(a, b, log[t].p);
    }
    forall p | p in b.pending ensures LiveFor(b, log, p) {
      assert LiveFor(a, log, p) && SamePromise(a, b, p);
      var t :| 0 <= t < |log| && log[t].p == p && Live(a, t, log[t]);
      assert Live(b, t, log[t]);
    }
    assert forall p | Of(a.promises, p).Rejected? :: SamePromise(a, b, p);
    assert forall t | 0 <= t < |log| :: SamePromise(a, b, log[t].p);
    DueSame(a, b, log, |log|);
  }

  lemma ThenSeen(st: State, p: Id, log: seq<Tracked>, errors: seq<Failure>)
    requires Core(st, log, errors)
    ensures Core(Then(st, p, Seen(p)), log, errors)
  {
    var b := Then(st, p, Seen(p));
    match Of(st.promises, p) {
      case Unsettled(rs) =>
        assert ReactionsOk(rs, p, log);
        forall q | Waiting(b.promises, q) ensures ReactionsOk(Of(b.promises, q).reactions, q, log) {
          if q != p { assert ReactionsOk(Of(st.promises, q).reactions, q, log); }
        }
      case _ =>
    }
    CoreSame(st, b, log, errors);
  }

  lemma {:induction false} ThenAllSeen(st: State, ps: seq<Id>, log: seq<Tracked>, errors: seq<Failure>)
    requires Core(st, log, errors)
    ensures Core(ThenAll(st, ps), log, errors)
    ensures ThenAll(st, ps).pending == st.pending && ThenAll(st, ps).tracked == st.tracked
    ensures forall p | p in ps :: Wakes(ThenAll(st, ps), p)
    ensures Count(ThenAll(st, ps).queue, Resume) == Count(st.queue, Resume)
  {
    if ps != [] {
      var n := |ps| - 1;
      ThenAllSeen(st, ps[..n], log, errors);
      var mid := ThenAll(st, ps[..n]);
      ThenSeen(mid, ps[n], log, errors);
      forall p | p in ps ensures Wakes(ThenAll(st, ps), p) {
        assert p != ps[n] ==> p in ps[..n];
      }
    }
  }

  lemma TrackJobs(st: State, of: Tracked, log: seq<Tracked>, errors: seq<Failure>)
    requires Core(st, log, errors)
    ensures JobsOk(TrackStep(st, of), log + [of])
  {
    var b, more := TrackStep(st, of), log + [of];
    forall j | j in b.queue ensures FromLog(j, more) {
      assert j in st.queue ==> FromLog(j, log);
    }
    forall q | Waiting(b.promises, q) ensures ReactionsOk(Of(b.promises, q).reactions, q, more) {
      TrackReactions(st, of, log, q);
    }
    forall t | 0 <= t < |more| ensures Placed(b, t, more[t]) {
      TrackPlaced(st, of, log, t);
    }
  }

  lemma TrackReactions(st: State, of: Tracked, log: seq<Tracked>, q: Id)
    requires JobsOk(st, log) && Waiting(TrackStep(st, of).promises, q)
    ensures ReactionsOk(Of(TrackStep(st, of).promises, q).reactions, q, log + [of])
  {
    var rs := Of(st.promises, q).reactions;
    assert ReactionsOk(rs, q, log);
    forall j | j in rs ensures Reaction(j, q, log + [of]) {
      assert Reaction(j, q, log);
    }
  }

  lemma TrackPlaced(st: State, of: Tracked, log: seq<Tracked>, t: nat)
    requires JobsOk(st, log) && t <= |log|
    ensures Placed(TrackStep(st, of), t, (log + [of])[t])
  {
    NewCallback(st, of, log);
    if t < |log| { assert Placed(st, t, log[t]); }
  }

  /** No callback of the next track call is anywhere. */
  lemma NewCallback(st: State, of: Tracked, log: seq<Tracked>)
    requires JobsOk(st, log)
    ensures Work(st.queue, |log|, of) == 0
    ensures Waiting(st.promises, of.p) ==> Count(Of(st.promises, of.p).reactions, Catch(|log|, of)) == 0
  {
    assert !FromLog(Catch(|log|, of), log) && !FromLog(Finally(|log|, of), log);
    if Waiting(st.promises, of.p) {
      assert ReactionsOk(Of(st.promises, of.p).reactions, of.p, log);
      assert !Reaction(Catch(|log|, of), of.p, log);
    }
  }

  lemma TrackPending(st: State, of: Tracked, log: seq<Tracked>, errors: seq<Failure>)
    requires Core(st, log, errors)
    ensures PendingOk(TrackStep(st, of), log + [of])
  {
    var b, more := TrackStep(st, of), log + [of];
    NewCallback(st, of, log);
    forall t | 0 <= t < |more| ensures Waiting(b.promises, more[t].p) ==> more[t].p in b.pending {
      if t < |log| { assert log[t] == more[t]; }
    }
    forall p | p in b.pending ensures LiveFor(b, more, p) {
      if p == of.p {
        assert Live(b, |log|, more[|log|]);
      } else {
        assert LiveFor(st, log, p);
        var t :| 0 <= t < |log| && log[t].p == p && Live(st, t, log[t]);
        assert Live(b, t, more[t]);
      }
    }
  }

  lemma TrackReports(st: State, of: Tracked, log: seq<Tracked>, t: nat)
    requires JobsOk(st, log) && t <= |log|
    ensures Reported(TrackStep(st, of), t, (log + [of])[t]) <==> t < |log| && Reported(st, t, log[t])
  {
  }

  lemma TrackFailures(st: State, of: Tracked, log: seq<Tracked>, errors: seq<Failure>)
    requires JobsOk(st, log) && FailuresOk(st, log, errors)
    ensures FailuresOk(TrackStep(st, of), log + [of], errors)
  {
    var b := TrackStep(st, of);
    DueOfLonger(b, log, [of], |log|);
    forall t | 0 <= t <= |log| ensures Reported(b, t, (log + [of])[t]) <==> t < |log| && Reported(st, t, log[t]) {
      TrackReports(st, of, log, t);
    }
    DueSame(st, b, log, |log|);
  }

  lemma TrackCore(st: State, of: Tracked, log: seq<Tracked>, errors: seq<Failure>)
    requires Core(st, log, errors)
    ensures Core(TrackStep(st, of), log + [of], errors)
  {
    TrackJobs(st, of, log, errors);
    TrackPending(st, of, log, errors);
    TrackFailures(st, of, log, errors);
  }

  lemma SettleJobs(st: State, p: Id, outcome: Promise, log: seq<Tracked>, errors: seq<Failure>)
    requires Core(st, log, errors) && Waiting(st.promises, p) && !outcome.Unsettled?
    ensures JobsOk(SettleStep(st, p, outcome), log)
    ensures forall t | 0 <= t < |log| :: log[t].p == p ==>
              Count(SettleStep(st, p, outcome).queue, Catch(t, log[t])) == 1
    ensures forall t | 0 <= t < |log| :: log[t].p != p ==>
              Work(SettleStep(st, p, outcome).queue, t, log[t]) == Work(st.queue, t, log[t])
    ensures forall t | 0 <= t < |log| :: log[t].p != p ==>
              Count(SettleStep(st, p, outcome).queue, Catch(t, log[t])) == Count(st.queue, Catch(t, log[t]))
  {
    var b, rs := SettleStep(st, p, outcome), Of(st.promises, p).reactions;
    assert ReactionsOk(rs, p, log);
    forall j | j in b.queue ensures FromLog(j, log) {
      assert j in rs ==> Reaction(j, p, log);
    }
    forall q | Waiting(b.promises, q) ensures ReactionsOk(Of(b.promises, q).reactions, q, log) {
      assert ReactionsOk(Of(st.promises, q).reactions, q, log);
    }
    assert multiset(b.queue) == multiset(st.queue) + multiset(rs);
    forall t | 0 <= t < |log|
      ensures Placed(b, t, log[t])
      ensures log[t].p == p ==> Count(b.queue, Catch(t, log[t])) == 1
      ensures log[t].p != p ==> Count(rs, Catch(t, log[t])) == 0 && Count(rs, Finally(t, log[t])) == 0
    {
      assert Placed(st, t, log[t]);
      OnlyOwn(rs, p, log, t);
    }
  }

  lemma OnlyOwn(rs: seq<Job>, p: Id, log: seq<Tracked>, t: nat)
    requires ReactionsOk(rs, p, log) && t < |log|
    ensures Count(rs, Finally(t, log[t])) == 0
    ensures log[t].p != p ==> Count(rs, Catch(t, log[t])) == 0
  {
    assert !Reaction(Finally(t, log[t]), p, log);
    assert log[t].p != p ==> !Reaction(Catch(t, log[t]), p, log);
  }

  lemma SettlePending(st: State, p: Id, outcome: Promise, log: seq<Tracked>, errors: seq<Failure>)
    requires Core(st, log, errors) && Waiting(st.promises, p) && !outcome.Unsettled?
    ensures PendingOk(SettleStep(st, p, outcome), log)
  {
    var b := SettleStep(st, p, outcome);
    SettleJobs(st, p, outcome, log, errors);
    forall q | q in b.pending ensures LiveFor(b, log, q) {
      assert LiveFor(st, log, q);
      var t :| 0 <= t < |log| && log[t].p == q && Live(st, t, log[t]);
      assert Placed(b, t, log[t]) && Live(b, t, log[t]);
    }
  }

  lemma SettleCore(st: State, p: Id, outcome: Promise, log: seq<Tracked>, errors: seq<Failure>)
    requires Core(st, log, errors)
    ensures Core(SettleStep(st, p, outcome), log, errors)
  {
    if Waiting(st.promises, p) && !outcome.Unsettled? {
      var b := SettleStep(st, p, outcome);
      SettleJobs(st, p, outcome, log, errors);
      SettlePending(st, p, outcome, log, errors);
      forall t | 0 <= t < |log| ensures Reported(st, t, log[t]) == Reported(b, t, log[t]) {}
      DueSame(st, b, log, |log|);
    }
  }

  /** The first job is taken off the queue. */
  function Popped(st: State): State
    requires st.queue != []
  {
    st.(queue := st.queue[1..])
  }

  lemma PoppedCounts(st: State)
    requires st.queue != []
    ensures forall j :: Count(st.queue, j) == Count(Popped(st).queue, j) + if j == st.queue[0] then 1 else 0
    ensures forall j :: j in Popped(st).queue ==> j in st.queue
  {
    assert st.queue == [st.queue[0]] + st.queue[1..];
  }

  lemma CatchCounts(st: State, log: seq<Tracked>)
    requires JobsOk(st, log) && st.queue != [] && st.queue[0].Catch?
    ensures forall t | 0 <= t < |log| ::
              Work(JobStep(Popped(st), st.queue[0]).queue, t, log[t]) == Work(st.queue, t, log[t])
    ensures forall t | 0 <= t < |log| :: Count(JobStep(Popped(st), st.queue[0]).queue, Catch(t, log[t])) ==
                                         Count(st.queue, Catch(t, log[t])) - if t == st.queue[0].t then 1 else 0
  {
    var j := st.queue[0];
    PoppedCounts(st);
    assert FromLog(j, log);
    assert JobStep(Popped(st), j).queue == Popped(st).queue + [Finally(j.t, j.of)];
  }

  lemma CatchJobs(st: State, log: seq<Tracked>)
    requires JobsOk(st, log) && st.queue != [] && st.queue[0].Catch?
    ensures JobsOk(JobStep(Popped(st), st.queue[0]), log)
  {
    var b := JobStep(Popped(st), st.queue[0]);
    PoppedCounts(st);
    CatchCounts(st, log);
    assert FromLog(st.queue[0], log);
    forall t | 0 <= t < |log| ensures Placed(b, t, log[t]) {
      assert Placed(st, t, log[t]);
    }
  }

  lemma CatchFailures(st: State, log: seq<Tracked>, errors: seq<Failure>)
    requires JobsOk(st, log) && FailuresOk(st, log, errors) && st.queue != [] && st.queue[0].Catch?
    ensures FailuresOk(JobStep(Popped(st), st.queue[0]), log, errors)
  {
    var j := st.queue[0];
    var b := JobStep(Popped(st), j);
    CatchCounts(st, log);
    assert FromLog(st.queue[0], log) && Placed(st, j.t, log[j.t]);
    if Of(st.promises, j.of.p).Rejected? {
      assert Count(st.queue, Catch(j.t, log[j.t])) == 1;
      DueOneMore(st, b, log, |log|, j.t);
    } else {
      DueSame(st, b, log, |log|);
    }
  }

  lemma CatchPending(st: State, log: seq<Tracked>)
    requires JobsOk(st, log) && PendingOk(st, log) && st.queue != [] && st.queue[0].Catch?
    ensures PendingOk(JobStep(Popped(st), st.queue[0]), log)
  {
    var b := JobStep(Popped(st), st.queue[0]);
    CatchCounts(st, log);
    forall q | q in b.pending ensures LiveFor(b, log, q) {
      assert LiveFor(st, log, q);
      var t :| 0 <= t < |log| && log[t].p == q && Live(st, t, log[t]);
      assert Live(b, t, log[t]);
    }
  }

  lemma CatchCore(st: State, log: seq<Tracked>, errors: seq<Failure>)
    requires Core(st, log, errors) && st.queue != [] && st.queue[0].Catch?
    ensures Core(JobStep(Popped(st), st.queue[0]), log, errors)
  {
    CatchJobs(st, log);
    CatchPending(st, log);
    CatchFailures(st, log, errors);
  }

  lemma FinallyCore(st: State, log: seq<Tracked>, errors: seq<Failure>)
    requires Core(st, log, errors) && st.queue != [] && st.queue[0].Finally?
    ensures Core(JobStep(Popped(st), st.queue[0]), log, errors)
  {
    var j := st.queue[0];
    var b := JobStep(Popped(st), j);
    PoppedCounts(st);
    assert FromLog(st.queue[0], log) && Placed(st, j.t, log[j.t]);
    forall t | 0 <= t < |log| ensures Placed(b, t, log[t]) {
      assert Placed(st, t, log[t]);
    }
    forall q | q in b.pending ensures LiveFor(b, log, q) {
      assert LiveFor(st, log, q);
      var t :| 0 <= t < |log| && log[t].p == q && Live(st, t, log[t]);
      assert Live(b, t, log[t]);
    }
    DueSame(st, b, log, |log|);
  }

  lemma PopCore(st: State, log: seq<Tracked>, errors: seq<Failure>)
    requires Core(st, log, errors) && st.queue != [] && (st.queue[0].Seen? || st.queue[0].Resume?)
    ensures Core(Popped(st), log, errors)
  {
    PoppedCounts(st);
    var b := Popped(st);
    CoreSame(st, b, log, errors);
  }

  lemma LoopCore(st: State, log: seq<Tracked>, errors: seq<Failure>)
    requires Core(st, log, errors)
    ensures Core(Loop(st), log, errors)
  {
    ThenAllSeen(st, st.pending, log, errors);
    WaitCore(if st.pending != [] then ThenAll(st, st.pending) else st, Loop(st).wait, log, errors);
  }

  lemma ResumeCore(st: State, log: seq<Tracked>, errors: seq<Failure>)
    requires Core(st, log, errors)
    ensures Core(ResumeStep(st), log, errors)
  {
    if ResumeStep(st) == Loop(st) {
      LoopCore(st, log, errors);
    } else {
      WaitCore(st, ResumeStep(st).wait, log, errors);
    }
  }

  lemma WaitCore(st: State, wait: Wait, log: seq<Tracked>, errors: seq<Failure>)
    requires Core(st, log, errors)
    ensures Core(st.(wait := wait), log, errors)
  {
    CoreSame(st, st.(wait := wait), log, errors);
  }

  lemma SeenCore(st: State, p: Id, log: seq<Tracked>, errors: seq<Failure>)
    requires Core(st, log, errors)
    ensures Core(JobStep(st, Seen(p)), log, errors)
  {
    CoreSame(st, JobStep(st, Seen(p)), log, errors);
  }

  // ---------------------------------------------------------- WaitOk is kept

  lemma TrackWait(st: State, of: Tracked)
    requires WaitOk(st)
    ensures WaitOk(TrackStep(st, of))
  {
    var b := TrackStep(st, of);
    if st.wait.AllSettled? {
      forall p | p in st.wait.left ensures Wakes(b, p) {
        assert Wakes(st, p);
      }
    } else if st.wait.Quiet? && Resume in st.queue {
      forall j | j in b.queue ensures Unhandled(j, b.pending, st.wait.before) {
        assert j in st.queue ==> Unhandled(j, st.pending, st.wait.before);
      }
    }
  }

  lemma SettleWait(st: State, p: Id, outcome: Promise, log: seq<Tracked>)
    requires WaitOk(st) && JobsOk(st, log) && PendingOk(st, log)
    requires Waiting(st.promises, p) && !outcome.Unsettled?
    ensures WaitOk(SettleStep(st, p, outcome))
  {
    var b, rs := SettleStep(st, p, outcome), Of(st.promises, p).reactions;
    assert ReactionsOk(rs, p, log);
    assert !Reaction(Resume, p, log);
    if st.wait.AllSettled? {
      forall q | q in st.wait.left ensures Wakes(b, q) {
        assert Wakes(st, q);
      }
    } else if st.wait.Quiet? && Resume in st.queue {
      forall j | j in b.queue ensures Unhandled(j, b.pending, st.wait.before) {
        if j in rs {
          assert Reaction(j, p, log);
        } else {
          assert Unhandled(j, st.pending, st.wait.before);
        }
      }
    }
  }

  lemma LoopWait(st: State, log: seq<Tracked>, errors: seq<Failure>)
    requires Core(st, log, errors) && Resume !in st.queue
    ensures WaitOk(Loop(st))
  {
    ThenAllSeen(st, st.pending, log, errors);
    if st.pending != [] {
      var mid := ThenAll(st, st.pending);
      forall p | p in st.pending ensures Wakes(Loop(st), p) {
        assert Wakes(mid, p);
      }
      assert st.pending[0] in Loop(st).wait.left;
    }
  }

  lemma ResumeWait(st: State, log: seq<Tracked>, errors: seq<Failure>)
    requires Core(st, log, errors) && WaitOk(st) && st.queue != [] && st.queue[0] == Resume
    ensures WaitOk(ResumeStep(Popped(st)))
  {
    PopCore(st, log, errors);
    PoppedCounts(st);
    LoopWait(Popped(st), log, errors);
  }

  lemma SeenWait(st: State, p: Id)
    requires WaitOk(st) && st.queue != [] && st.queue[0] == Seen(p)
    ensures WaitOk(JobStep(Popped(st), Seen(p)))
  {
    var b := JobStep(Popped(st), Seen(p));
    PoppedCounts(st);
    if st.wait.AllSettled? {
      forall q | q in b.wait.left ensures Wakes(b, q) {
        assert Wakes(st, q);
      }
    }
  }

  lemma CallbackWait(st: State)
    requires WaitOk(st) && st.queue != [] && (st.queue[0].Catch? || st.queue[0].Finally?)
    ensures WaitOk(JobStep(Popped(st), st.queue[0]))
  {
    var b := JobStep(Popped(st), st.queue[0]);
    PoppedCounts(st);
    if st.wait.AllSettled? {
      forall q | q in st.wait.left ensures Wakes(b, q) {
        assert Wakes(st, q);
      }
    }
  }

  lemma StepInv(st: State, s: Step, log: seq<Tracked>, errors: seq<Failure>)
    requires Inv(st, log, errors) && Enabled(st, s)
    ensures Inv(Apply(st, s), log + (if s.Track? then [s.of] else []),
                errors + if s.PageError? then PageFailure(s.path, s.message) else [])
  {
    assert log + [] == log && errors + [] == errors;
    match s {
      case Track(of) =>
        TrackCore(st, of, log, errors);
        TrackWait(st, of);
      case Settle(p, outcome) =>
        SettleCore(st, p, outcome, log, errors);
        if Waiting(st.promises, p) && !outcome.Unsettled? { SettleWait(st, p, outcome, log); }
      case PageError(path, message) => ErrorInv(st, path, message, log, errors);
      case Call =>
        LoopCore(st, log, errors);
        LoopWait(st, log, errors);
      case Job => JobInv(st, log, errors);
      case Fire => CoreSame(st, Apply(st, Fire), log, errors);
    }
  }

  lemma ErrorInv(st: State, path: Option<string>, message: string, log: seq<Tracked>, errors: seq<Failure>)
    requires Inv(st, log, errors)
    ensures Inv(Apply(st, PageError(path, message)), log, errors + PageFailure(path, message))
  {
    var b := Apply(st, PageError(path, message));
    forall t | 0 <= t < |log| ensures Placed(b, t, log[t]) {
      assert Placed(st, t, log[t]);
    }
    forall p | p in b.pending ensures LiveFor(b, log, p) {
      assert LiveFor(st, log, p);
      var t :| 0 <= t < |log| && log[t].p == p && Live(st, t, log[t]);
      assert Live(b, t, log[t]);
    }
    DueSame(st, b, log, |log|);
    if st.wait.AllSettled? {
      forall q | q in st.wait.left ensures Wakes(b, q) {
        assert Wakes(st, q);
      }
    }
  }

  lemma JobInv(st: State, log: seq<Tracked>, errors: seq<Failure>)
    requires Inv(st, log, errors) && st.queue != []
    ensures Inv(Apply(st, Job), log, errors)
  {
    match st.queue[0] {
      case Seen(p) => SeenInv(st, p, log, errors);
      case Resume => ResumeInv(st, log, errors);
      case _ => CallbackInv(st, log, errors);
    }
  }

  lemma CallbackInv(st: State, log: seq<Tracked>, errors: seq<Failure>)
    requires Inv(st, log, errors) && st.queue != [] && (st.queue[0].Catch? || st.queue[0].Finally?)
    ensures Inv(JobStep(Popped(st), st.queue[0]), log, errors)
  {
    if st.queue[0].Catch? {
      CatchCore(st, log, errors);
    } else {
      FinallyCore(st, log, errors);
    }
    CallbackWait(st);
  }

  lemma SeenInv(st: State, p: Id, log: seq<Tracked>, errors: seq<Failure>)
    requires Inv(st, log, errors) && st.queue != [] && st.queue[0] == Seen(p)
    ensures Inv(JobStep(Popped(st), Seen(p)), log, errors)
  {
    PopCore(st, log, errors);
    SeenCore(Popped(st), p, log, errors);
    SeenWait(st, p);
  }

  lemma ResumeInv(st: State, log: seq<Tracked>, errors: seq<Failure>)
    requires Inv(st, log, errors) && st.queue != [] && st.queue[0] == Resume
    ensures Inv(ResumeStep(Popped(st)), log, errors)
  {
    PopCore(st, log, errors);
    ResumeCore(Popped(st), log, errors);
    ResumeWait(st, log, errors);
  }

  /** The invariant of every run. */
  lemma {:induction false} RunInv(steps: seq<Step>)
    requires Legal(steps)
    ensures Inv(Run(steps), Log(steps), Errors(steps))
  {
    if steps != [] {
      RunInv(Init(steps));
      StepInv(Run(Init(steps)), Last(steps), Log(Init(steps)), Errors(Init(steps)));
    }
  }

  // ----------------------------------------------------------- main results

  /** The failures of the track calls whose promise was rejected, one for each call. */
  function Rejections(log: seq<Tracked>, promises: map<Id, Promise>): multiset<Failure> {
    if log == [] then multiset{}
    else
      var of := log[|log| - 1];
      Rejections(log[..|log| - 1], promises)
      + if Of(promises, of.p).Rejected? then multiset{FailureOf(of, Of(promises, of.p).reason)} else multiset{}
  }

  lemma {:induction false} DueIsRejections(st: State, log: seq<Tracked>, n: nat)
    requires n <= |log|
    requires forall t | 0 <= t < n :: Count(st.queue, Catch(t, log[t])) == 0
    ensures Due(st, log, n) == Rejections(log[..n], st.promises)
  {
    if n > 0 {
      DueIsRejections(st, log, n - 1);
      assert log[..n][..n - 1] == log[..n - 1];
    }
  }

  /** The last step makes settled() return. */
  predicate Returning(steps: seq<Step>) {
    steps != [] && Legal(steps) && Run(steps).wait.Returned? && !Run(Init(steps)).wait.Returned?
  }

  lemma ReturnStep(steps: seq<Step>)
    requires Returning(steps)
    ensures var was := Run(Init(steps));
            && was.wait.Quiet? && was.wait.stage == 2 && was.tracked == was.wait.before && was.pending == []
            && Last(steps) == Job && was.queue != [] && was.queue[0] == Resume
            && Run(steps) == Popped(was).(wait := Returned(was.failures))
  {
    var was := Run(Init(steps));
    RunInv(Init(steps));
    match Last(steps) {
      case Job =>
      case Track(_) =>
      case _ =>
    }
  }

  /** When settled() returns, every promise tracked so far is settled, and the failures are the errors of the page
      and one entry for each track call whose promise was rejected. */
  lemma {:induction false} SettledReportsEverything(steps: seq<Step>)
    requires Returning(steps)
    ensures forall of | of in Log(steps) :: !Waiting(Run(steps).promises, of.p)
    ensures multiset(Run(steps).wait.failures) == multiset(Errors(steps)) + Rejections(Log(steps), Run(steps).promises)
  {
    var was, st, log := Run(Init(steps)), Run(steps), Log(steps);
    RunInv(Init(steps));
    RunInv(steps);
    ReturnStep(steps);
    PoppedCounts(was);
    assert AllUnhandled(was, was.wait.before);
    assert forall j | j in st.queue :: j.Catch? ==> j.t >= |log|;
    DueIsRejections(st, log, |log|);
    assert log[..|log|] == log;
  }

  lemma {:induction false} PrefixIsLegal(steps: seq<Step>, k: nat)
    requires Legal(steps) && k <= |steps|
    ensures Legal(steps[..k])
  {
    if k == |steps| {
      assert steps[..k] == steps;
    } else {
      PrefixIsLegal(Init(steps), k);
      assert Init(steps)[..k] == steps[..k];
    }
  }

  /** The quiet period that is under way began after k steps. */
  predicate Began(steps: seq<Step>, k: nat)
    requires Legal(steps) && Run(steps).wait.Quiet? && k <= |steps|
  {
    var st := Run(steps);
    && Legal(steps[..k])
    && Run(steps[..k]).wait == Quiet(0, st.wait.before)
    && Run(steps[..k]).tracked == st.wait.before
    && Fires(steps) == Fires(steps[..k]) + st.wait.stage + if Resume in st.queue then 1 else 0
  }

  lemma {:induction false} QuietBegan(steps: seq<Step>) returns (k: nat)
    requires Legal(steps) && Run(steps).wait.Quiet?
    ensures k <= |steps| && Began(steps, k)
  {
    var was := Run(Init(steps));
    RunInv(Init(steps));
    if was.wait.Quiet? && !(Last(steps) == Job && was.queue[0] == Resume && was.wait.stage == 2) {
      k := QuietBegan(Init(steps));
      StillBegan(steps, k);
    } else {
      k := |steps|;
      assert steps[..k] == steps;
      BeginsNow(was, Last(steps));
    }
  }

  lemma NoResumeWaits(st: State, log: seq<Tracked>)
    requires JobsOk(st, log)
    ensures forall p | Waiting(st.promises, p) :: Resume !in Of(st.promises, p).reactions
  {
    forall p | Waiting(st.promises, p) ensures Resume !in Of(st.promises, p).reactions {
      assert ReactionsOk(Of(st.promises, p).reactions, p, log) && !Reaction(Resume, p, log);
    }
  }

  lemma StillBegan(steps: seq<Step>, k: nat)
    requires steps != [] && Legal(steps) && Run(steps).wait.Quiet? && Run(Init(steps)).wait.Quiet?
    requires k < |steps| && Began(Init(steps), k)
    requires !(Last(steps) == Job && Run(Init(steps)).queue[0] == Resume && Run(Init(steps)).wait.stage == 2)
    ensures Began(steps, k)
  {
    RunInv(Init(steps));
    assert steps[..k] == Init(steps)[..k];
    NoResumeWaits(Run(Init(steps)), Log(Init(steps)));
    KeepsBeginning(Run(Init(steps)), Last(steps));
  }

  lemma KeepsBeginning(was: State, s: Step)
    requires WaitOk(was) && Enabled(was, s) && was.wait.Quiet? && Apply(was, s).wait.Quiet?
    requires forall p | Waiting(was.promises, p) :: Resume !in Of(was.promises, p).reactions
    requires !(s == Job && was.queue[0] == Resume && was.wait.stage == 2)
    ensures Apply(was, s).wait.before == was.wait.before
    ensures Apply(was, s).wait.stage + (if Resume in Apply(was, s).queue then 1 else 0)
         == was.wait.stage + (if Resume in was.queue then 1 else 0) + if s == Fire then 1 else 0
  {
    if s == Job { PoppedCounts(was); }
  }

  lemma BeginsNow(was: State, s: Step)
    requires WaitOk(was) && Enabled(was, s) && Apply(was, s).wait.Quiet?
    requires !was.wait.Quiet? || (s == Job && was.queue[0] == Resume && was.wait.stage == 2)
    ensures Apply(was, s).wait == Quiet(0, Apply(was, s).tracked) && Resume !in Apply(was, s).queue
  {
    if s == Job { PoppedCounts(was); }
  }

  lemma {:induction false} TracksCounted(steps: seq<Step>, k: nat)
    requires Legal(steps) && k <= |steps| && |Log(steps)| == |Log(steps[..k])|
    ensures forall i | k <= i < |steps| :: !steps[i].Track?
  {
    if k == |steps| {
    } else {
      LogGrows(Init(steps), k);
      assert Init(steps)[..k] == steps[..k];
      TracksCounted(Init(steps), k);
    }
  }

  lemma {:induction false} LogGrows(steps: seq<Step>, k: nat)
    requires k <= |steps|
    ensures |Log(steps[..k])| <= |Log(steps)|
  {
    if k == |steps| {
      assert steps[..k] == steps;
    } else {
      LogGrows(Init(steps), k);
      assert Init(steps)[..k] == steps[..k];
    }
  }

  /** When settled() returns, a quiet period of two frames and a timer lies behind it, nothing was tracked since it
      began, and nothing is pending. */
  lemma {:induction false} QuietBeforeReturn(steps: seq<Step>) returns (k: nat)
    requires Returning(steps)
    ensures k < |steps| && Legal(steps[..k]) && Run(steps[..k]).wait == Quiet(0, Run(steps[..k]).tracked)
    ensures forall i | k <= i < |steps| :: !steps[i].Track?
    ensures Fires(steps) == Fires(steps[..k]) + 3
    ensures Run(steps).pending == []
  {
    ReturnStep(steps);
    k := QuietBegan(Init(steps));
    assert Init(steps)[..k] == steps[..k];
    RunInv(steps[..k]);
    RunInv(steps);
    TracksCounted(steps, k);
  }

  // --------------------------------------------------------------- progress

  ghost predicate LeftTracked(st: State, log: seq<Tracked>) {
    st.wait.AllSettled? ==> forall p | p in st.wait.left :: IsTracked(log, p)
  }

  ghost predicate IsTracked(log: seq<Tracked>, p: Id) {
    exists of | of in log :: of.p == p
  }

  lemma {:induction false} LeftIsTracked(steps: seq<Step>)
    requires Legal(steps)
    ensures LeftTracked(Run(steps), Log(steps))
  {
    if steps != [] {
      var was, st := Run(Init(steps)), Run(steps);
      LeftIsTracked(Init(steps));
      RunInv(Init(steps));
      if st.wait.AllSettled? {
        forall p | p in st.wait.left ensures IsTracked(Log(steps), p) {
          if was.wait.AllSettled? && p in was.wait.left {
            assert IsTracked(Log(Init(steps)), p);
          } else {
            assert p in was.pending;
            assert LiveFor(was, Log(Init(steps)), p);
          }
        }
      }
    }
  }

  lemma TimerRound(steps: seq<Step>)
    requires Legal(steps) && Run(steps).wait.Quiet? && Run(steps).queue == []
    ensures Legal(steps + [Fire, Job]) && Run(steps + [Fire, Job]) == ResumeStep(Run(steps))
  {
    AfterStep(steps, Fire);
    AfterStep(steps + [Fire], Job);
    assert steps + [Fire] + [Job] == steps + [Fire, Job];
    assert [Resume][1..] == [];
  }

  lemma AfterStep(steps: seq<Step>, s: Step)
    requires Legal(steps) && Enabled(Run(steps), s)
    ensures Legal(steps + [s]) && Run(steps + [s]) == Apply(Run(steps), s)
  {
    assert Init(steps + [s]) == steps;
  }

  /** With no job left, allSettled waits for a promise that is not settled. */
  lemma AwaitsUnsettled(st: State, log: seq<Tracked>)
    requires WaitOk(st) && LeftTracked(st, log) && st.queue == [] && st.wait.AllSettled?
    ensures exists of | of in log :: Waiting(st.promises, of.p)
  {
    assert Resume !in st.queue;
    var p :| p in st.wait.left;
    assert IsTracked(log, p) && Wakes(st, p);
  }

  lemma PendingIsUnsettled(st: State, log: seq<Tracked>)
    requires PendingOk(st, log) && st.queue == [] && st.pending != []
    ensures exists of | of in log :: Waiting(st.promises, of.p)
  {
    assert LiveFor(st, log, st.pending[0]);
  }

  /** Once the queue is empty and every tracked promise is settled, timers alone make settled() return. */
  lemma {:induction false} ReturnsWhenIdle(steps: seq<Step>) returns (more: seq<Step>)
    requires Legal(steps) && Run(steps).queue == []
    requires !Run(steps).wait.NotCalled? && !Run(steps).wait.Returned?
    requires forall of | of in Log(steps) :: !Waiting(Run(steps).promises, of.p)
    ensures forall i | 0 <= i < |more| :: more[i] == Fire || more[i] == Job
    ensures Legal(steps + more) && Run(steps + more).wait == Returned(Run(steps).failures)
  {
    var st, log := Run(steps), Log(steps);
    RunInv(steps);
    LeftIsTracked(steps);
    if st.wait.AllSettled? {
      AwaitsUnsettled(st, log);
    } else if st.pending != [] {
      PendingIsUnsettled(st, log);
    }
    more := Rounds(steps);
  }

  lemma {:induction false} Rounds(steps: seq<Step>) returns (more: seq<Step>)
    requires Legal(steps) && Run(steps).queue == [] && Run(steps).pending == []
    requires Run(steps).wait.Quiet? && Run(steps).wait.stage <= 2
    ensures forall i | 0 <= i < |more| :: more[i] == Fire || more[i] == Job
    ensures Legal(steps + more) && Run(steps + more).wait == Returned(Run(steps).failures)
    decreases if Run(steps).wait.before == Run(steps).tracked then 0 else 1, 2 - Run(steps).wait.stage
  {
    var st := Run(steps);
    TimerRound(steps);
    if st.wait.stage == 2 && st.tracked == st.wait.before {
      more := [Fire, Job];
    } else {
      var rest := Rounds(steps + [Fire, Job]);
      more := [Fire, Job] + rest;
      Regroup(steps, [Fire, Job], rest);
    }
  }

  // ----------------------------------------------- draining the job queue

  predicate IsCallback(j: Job) {
    j.Catch? || j.Finally?
  }

  /** The callbacks still to run: a rejection handler brings a deletion along. */
  function Callbacks(q: seq<Job>): nat {
    if q == [] then 0 else Callbacks(q[1..]) + if q[0].Catch? then 2 else if q[0].Finally? then 1 else 0
  }

  /** The jobs ahead of the first callback. */
  function Ahead(q: seq<Job>): nat {
    if q == [] || IsCallback(q[0]) then 0 else 1 + Ahead(q[1..])
  }

  /** The other jobs: one that has seen a promise may bring a wake-up along. */
  function Awaits(q: seq<Job>): nat {
    if q == [] then 0 else Awaits(q[1..]) + if q[0].Seen? then 2 else if q[0].Resume? then 1 else 0
  }

  /** How far the queue is from empty while no callback runs. */
  function Distance(q: seq<Job>): nat {
    if Callbacks(q) > 0 then Ahead(q) else Awaits(q)
  }

  lemma {:induction false} QueueJoined(a: seq<Job>, b: seq<Job>)
    ensures Callbacks(a + b) == Callbacks(a) + Callbacks(b) && Awaits(a + b) == Awaits(a) + Awaits(b)
    ensures Callbacks(a) > 0 ==> Ahead(a + b) == Ahead(a)
  {
    if a == [] {
      assert a + b == b;
    } else {
      QueueJoined(a[1..], b);
      assert (a + b)[0] == a[0] && (a + b)[1..] == a[1..] + b;
    }
  }

  lemma {:induction false} CallbackInQueue(q: seq<Job>, j: Job)
    requires j in q && IsCallback(j)
    ensures Callbacks(q) > 0
  {
    if q[0] != j { CallbackInQueue(q[1..], j); }
  }

  function Seens(ps: seq<Id>): seq<Job> {
    if ps == [] then [] else Seens(ps[..|ps| - 1]) + [Seen(ps[|ps| - 1])]
  }

  lemma {:induction false} SeensRunNone(ps: seq<Id>)
    ensures Callbacks(Seens(ps)) == 0
  {
    if ps != [] {
      SeensRunNone(ps[..|ps| - 1]);
      QueueJoined(Seens(ps[..|ps| - 1]), [Seen(ps[|ps| - 1])]);
    }
  }

  lemma {:induction false} AwaitSettled(st: State, ps: seq<Id>)
    requires forall p | p in ps :: !Waiting(st.promises, p)
    ensures ThenAll(st, ps) == st.(queue := st.queue + Seens(ps))
  {
    if ps == [] {
      assert st.queue + [] == st.queue;
    } else {
      assert ps[|ps| - 1] in ps && forall p | p in ps[..|ps| - 1] :: p in ps;
      AwaitSettled(st, ps[..|ps| - 1]);
      Regroup(st.queue, Seens(ps[..|ps| - 1]), [Seen(ps[|ps| - 1])]);
    }
  }

  ghost predicate AllTrackedSettled(st: State, log: seq<Tracked>) {
    forall of | of in log :: !Waiting(st.promises, of.p)
  }

  /** What is pending then has a callback in the queue. */
  lemma PendingHasCallback(st: State, log: seq<Tracked>)
    requires PendingOk(st, log) && AllTrackedSettled(st, log)
    ensures forall p | p in st.pending :: !Waiting(st.promises, p)
    ensures st.pending != [] ==> Callbacks(st.queue) > 0
  {
    forall p | p in st.pending ensures !Waiting(st.promises, p) && Callbacks(st.queue) > 0 {
      assert LiveFor(st, log, p);
      var t :| 0 <= t < |log| && log[t].p == p && Live(st, t, log[t]);
      assert log[t] in log;
      CallbackInQueue(st.queue, if Catch(t, log[t]) in st.queue then Catch(t, log[t]) else Finally(t, log[t]));
    }
    if st.pending != [] { assert st.pending[0] in st.pending; }
  }

  /** Running the loop over settled promises queues what sees them, behind the callbacks. */
  lemma LoopQueues(st: State)
    requires forall p | p in st.pending :: !Waiting(st.promises, p)
    ensures Loop(st).promises == st.promises && !Loop(st).wait.NotCalled?
    ensures Loop(st).queue == st.queue + Seens(st.pending)
  {
    AwaitSettled(st, st.pending);
    assert st.queue + [] == st.queue;
  }

  /** A job other than a callback, gone from the head, with more jobs behind. */
  lemma HeadGone(q: seq<Job>, more: seq<Job>)
    requires q != [] && !IsCallback(q[0]) && Callbacks(more) == 0
    requires Callbacks(q) == 0 ==> Awaits(more) < Awaits([q[0]])
    ensures Callbacks(q[1..] + more) == Callbacks(q) && Distance(q[1..] + more) < Distance(q)
  {
    QueueJoined(q[1..], more);
  }

  /** Each job brings the queue nearer to empty: a callback is done, or those left are nearer, or there are none. */
  lemma JobShrinks(st: State, log: seq<Tracked>, errors: seq<Failure>)
    requires Inv(st, log, errors) && AllTrackedSettled(st, log) && st.queue != [] && !st.wait.Returned?
            && !st.wait.NotCalled?
    ensures var b := Apply(st, Job);
            b.promises == st.promises && !b.wait.NotCalled? && Nearer(b.queue, st.queue)
  {
    var q, rest := st.queue, st.queue[1..];
    match q[0] {
      case Catch(t, of) => QueueJoined(rest, [Finally(t, of)]);
      case Finally(_, _) =>
      case Seen(_) =>
        HeadGone(q, []);
        HeadGone(q, [Resume]);
        assert rest + [] == rest;
      case Resume => ResumeShrinks(st, log, errors);
    }
  }

  lemma ResumeShrinks(st: State, log: seq<Tracked>, errors: seq<Failure>)
    requires Inv(st, log, errors) && AllTrackedSettled(st, log) && st.queue != [] && st.queue[0] == Resume
    ensures var b := Apply(st, Job);
            && b.promises == st.promises && !b.wait.NotCalled?
            && Callbacks(b.queue) == Callbacks(st.queue) && Distance(b.queue) < Distance(st.queue)
  {
    PendingHasCallback(st, log);
    ResumeQueues(st);
    HeadGone(st.queue, []);
    assert st.queue[1..] + [] == st.queue[1..];
    if st.pending != [] {
      SeensRunNone(st.pending);
      HeadGone(st.queue, Seens(st.pending));
    }
  }

  /** What going on leaves in the queue. */
  lemma ResumeQueues(st: State)
    requires WaitOk(st) && st.queue != [] && st.queue[0] == Resume
    requires forall p | p in st.pending :: !Waiting(st.promises, p)
    ensures var b := Apply(st, Job);
            && b.promises == st.promises && !b.wait.NotCalled?
            && (b.queue == st.queue[1..] || b.queue == st.queue[1..] + Seens(st.pending))
  {
    assert Resume in st.queue;
    LoopQueues(st.(queue := st.queue[1..]));
  }

  /** settled() never hangs: once every tracked promise is settled, the jobs drain, and frames and timers make it
      return, whatever was queued. */
  lemma {:induction false} SettledReturns(steps: seq<Step>) returns (more: seq<Step>)
    requires Legal(steps) && !Run(steps).wait.NotCalled? && !Run(steps).wait.Returned?
    requires AllTrackedSettled(Run(steps), Log(steps))
    ensures forall i | 0 <= i < |more| :: more[i] == Fire || more[i] == Job
    ensures Legal(steps + more) && Run(steps + more).wait.Returned?
    decreases Callbacks(Run(steps).queue), Distance(Run(steps).queue)
  {
    var st := Run(steps);
    RunInv(steps);
    if st.queue == [] {
      more := ReturnsWhenIdle(steps);
    } else {
      AfterJob(steps);
      if Run(steps + [Job]).wait.Returned? {
        more := [Job];
      } else {
        var rest := SettledReturns(steps + [Job]);
        more := [Job] + rest;
        Regroup(steps, [Job], rest);
      }
    }
  }

  /** One job later everything tracked is still settled, and the queue nearer to empty. */
  lemma AfterJob(steps: seq<Step>)
    requires Legal(steps) && Run(steps).queue != [] && AllTrackedSettled(Run(steps), Log(steps))
    requires !Run(steps).wait.NotCalled? && !Run(steps).wait.Returned?
    ensures Legal(steps + [Job]) && !Run(steps + [Job]).wait.NotCalled?
    ensures AllTrackedSettled(Run(steps + [Job]), Log(steps + [Job]))
    ensures Nearer(Run(steps + [Job]).queue, Run(steps).queue)
  {
    RunInv(steps);
    JobShrinks(Run(steps), Log(steps), Errors(steps));
    AfterStep(steps, Job);
    LogOfJob(steps);
  }

  /** Fewer callbacks to run, or as many and nearer. */
  predicate Nearer(a: seq<Job>, b: seq<Job>) {
    Callbacks(a) < Callbacks(b) || (Callbacks(a) == Callbacks(b) && Distance(a) < Distance(b))
  }

  lemma LogOfJob(steps: seq<Step>)
    ensures Log(steps + [Job]) == Log(steps)
  {
    assert Init(steps + [Job]) == steps;
    assert Log(steps) + [] == Log(steps);
  }

  // ------------------------------------------------------ the runtime itself

  /** window.binoPlugin, with the promises and the job queue of the page around it. */
  class Runtime {
    var pending: seq<Id>
    var failures: seq<Failure>
    var tracked: nat
    var promises: map<Id, Promise>
    var queue: seq<Job>
    var wait: Wait

    ghost function Now(): State
      reads this
    {
      State(pending, failures, tracked, promises, queue, wait)
    }

    constructor ()
      ensures Now() == START
    {
      pending, failures, tracked := [], [], 0;
      promises, queue, wait := map[], [], NotCalled;
    }

    method AddReaction(p: Id, j: Job)
      modifies this
      ensures Now() == Then(old(Now()), p, j)
    {
      match Of(promises, p) {
        case Unsettled(rs) => promises := promises[p := Unsettled(rs + [j])];
        case _ => queue := queue + [j];
      }
    }

    method Fail(of: Tracked, reason: Reason)
      modifies this
      ensures Now() == old(Now()).(failures := old(failures) + [FailureOf(of, reason)])
    {
      failures := failures + [FailureOf(of, reason)];
    }

    method Track(of: Tracked)
      modifies this
      ensures Now() == TrackStep(old(Now()), of)
    {
      var n := tracked;
      tracked := tracked + 1;
      pending := Added(pending, of.p);
      AddReaction(of.p, Catch(n, of));
    }

    method Settle(p: Id, outcome: Promise)
      modifies this
      ensures Now() == SettleStep(old(Now()), p, outcome)
    {
      var was := Of(promises, p);
      if was.Unsettled? && !outcome.Unsettled? {
        promises := promises[p := outcome];
        queue := queue + was.reactions;
      }
    }

    method OnError(path: Option<string>, message: string)
      modifies this
      ensures Now() == old(Now()).(failures := old(failures) + PageFailure(path, message))
    {
      if path.Some? && PLUGINS <= path.value {
        failures := failures + [Failure("", "", message + " (" + path.value + ")")];
      }
    }

    method AwaitAll()
      modifies this
      ensures Now() == ThenAll(old(Now()), old(pending))
    {
      ghost var was := Now();
      var ps := pending;
      for n := 0 to |ps|
        invariant Now() == ThenAll(was, ps[..n])
      {
        AddReaction(ps[n], Seen(ps[n]));
        assert ps[..n + 1][..n] == ps[..n];
      }
      assert ps[..|ps|] == ps;
    }

    /** From the head of the loop of settled() to its next await. */
    method HeadOfLoop()
      modifies this
      ensures Now() == Loop(old(Now()))
    {
      if pending != [] {
        var ps := pending;
        AwaitAll();
        wait := AllSettled(set p | p in ps);
      } else {
        wait := Quiet(0, tracked);
      }
    }

    method GoOn()
      modifies this
      ensures Now() == ResumeStep(old(Now()))
    {
      match wait {
        case AllSettled(_) => HeadOfLoop();
        case Quiet(stage, before) =>
          if stage < 2 {
            wait := Quiet(stage + 1, before);
          } else if tracked == before && pending == [] {
            wait := Returned(failures);
          } else {
            HeadOfLoop();
          }
        case _ =>
      }
    }

    method RunCallback(j: Job)
      modifies this
      ensures Now() == JobStep(old(Now()), j)
    {
      match j {
        case Catch(t, of) =>
          var was := Of(promises, of.p);
          if was.Rejected? { Fail(of, was.reason); }
          queue := queue + [Finally(t, of)];
        case Finally(_, of) => pending := Deleted(pending, of.p);
        case Seen(p) =>
          if wait.AllSettled? && p in wait.left {
            wait := AllSettled(wait.left - {p});
            if wait.left == {} { queue := queue + [Resume]; }
          }
        case Resume => GoOn();
      }
    }

    method Take(s: Step)
      requires Enabled(Now(), s)
      modifies this
      ensures Now() == Apply(old(Now()), s)
    {
      match s {
        case Track(of) => Track(of);
        case Settle(p, outcome) => Settle(p, outcome);
        case PageError(path, message) => OnError(path, message);
        case Call => HeadOfLoop();
        case Job =>
          var j := queue[0];
          queue := queue[1..];
          RunCallback(j);
        case Fire => queue := [Resume];
      }
    }
  }

  /** The runtime goes through the states of the run. */
  method RunPage(steps: seq<Step>) returns (page: Runtime)
    requires Legal(steps)
    ensures page.Now() == Run(steps)
  {
    page := new Runtime();
    PrefixIsLegal(steps, 0);
    for n := 0 to |steps|
      invariant Legal(steps[..n]) && page.Now() == Run(steps[..n])
      invariant fresh(page)
    {
      PrefixIsLegal(steps, n + 1);
      assert Init(steps[..n + 1]) == steps[..n];
      page.Take(steps[n]);
    }
    assert steps[..|steps|] == steps;
  }
}
