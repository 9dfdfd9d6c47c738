/** What the failures that settled() returns say, told by the steps of the page alone. */
module PluginReports {
  import opened Text
  import opened PluginRuntime

  /** The step settles the promise, if it is still open. */
  predicate Settles(s: Step, p: Id) {
    s.Settle? && s.p == p && !s.outcome.Unsettled?
  }

  /** The promise settles at step j, as that step says; what settles it later has no effect. */
  predicate SettlesFirst(steps: seq<Step>, j: int, p: Id) {
    0 <= j < |steps| && Settles(steps[j], p) && forall i | 0 <= i < j :: !Settles(steps[i], p)
  }

  predicate RejectedWith(steps: seq<Step>, p: Id, reason: Reason) {
    exists j | 0 <= j < |steps| :: SettlesFirst(steps, j, p) && steps[j].outcome == Rejected(reason)
  }

  /** The failure names the element, and gives the message of the reason, or its text where there is none. */
  predicate Describes(f: Failure, of: Tracked, reason: Reason) {
    && (of.element.Some? ==> f.tag == of.element.value.localName && f.id == of.element.value.id)
    && (of.element.None? ==> f.tag == "" && f.id == "")
    && (reason.message.Some? && reason.message.value != "" ==> f.message == reason.message.value)
    && (reason.message == None || reason.message == Some("") ==> f.message == reason.text)
  }

  /** Step i tracks a promise that is rejected, and f describes it. */
  ghost predicate TracksRejected(steps: seq<Step>, i: int, f: Failure) {
    0 <= i < |steps| && steps[i].Track?
    && exists reason :: RejectedWith(steps, steps[i].of.p, reason) && Describes(f, steps[i].of, reason)
  }

  /** The step is an error of a plugin script, and f describes it. */
  predicate Raises(s: Step, f: Failure) {
    && s.PageError? && s.path.Some? && "/plugins/" <= s.path.value
    && f.tag == "" && f.id == "" && f.message == s.message + " (" + s.path.value + ")"
  }

  // ---------------------------------------------------------------- outcomes

  lemma {:induction false} AwaitingKeeps(st: State, ps: seq<Id>, p: Id)
    ensures Waiting(ThenAll(st, ps).promises, p) <==> Waiting(st.promises, p)
    ensures !Waiting(st.promises, p) ==> Of(ThenAll(st, ps).promises, p) == Of(st.promises, p)
  {
    if ps != [] {
      AwaitingKeeps(st, ps[..|ps| - 1], p);
    }
  }

  /** A step leaves a settled promise as it is, and settles an open one only if it says so. */
  lemma StepKeepsOutcomes(st: State, s: Step, p: Id)
    requires Enabled(st, s)
    ensures !Waiting(st.promises, p) ==> Of(Apply(st, s).promises, p) == Of(st.promises, p)
    ensures Waiting(st.promises, p) ==>
              if Settles(s, p) then Of(Apply(st, s).promises, p) == s.outcome else Waiting(Apply(st, s).promises, p)
  {
    AwaitingKeeps(st, st.pending, p);
    if st.queue != [] {
      AwaitingKeeps(st.(queue := st.queue[1..]), st.pending, p);
    }
  }

  predicate NeverSettles(steps: seq<Step>, p: Id) {
    forall j | 0 <= j < |steps| :: !Settles(steps[j], p)
  }

  lemma NeverSettlesMore(init: seq<Step>, s: Step, p: Id)
    ensures NeverSettles(init + [s], p) <==> NeverSettles(init, p) && !Settles(s, p)
  {
    var steps := init + [s];
    assert steps[|init|] == s && forall j | 0 <= j < |init| :: steps[j] == init[j];
  }

  lemma {:induction false} OpenIff(steps: seq<Step>, p: Id)
    requires Legal(steps)
    ensures Waiting(Run(steps).promises, p) <==> NeverSettles(steps, p)
  {
    if steps != [] {
      OpenIff(Init(steps), p);
      StepKeepsOutcomes(Run(Init(steps)), Last(steps), p);
      NeverSettlesMore(Init(steps), Last(steps), p);
      assert steps == Init(steps) + [Last(steps)];
    }
  }

  lemma {:induction false} OutcomeIs(steps: seq<Step>, p: Id, j: nat)
    requires Legal(steps) && SettlesFirst(steps, j, p)
    ensures Of(Run(steps).promises, p) == steps[j].outcome
  {
    var init := Init(steps);
    StepKeepsOutcomes(Run(init), Last(steps), p);
    OpenIff(init, p);
    if j < |init| {
      OutcomeIs(init, p, j);
    }
  }

  /** A promise that has settled did so first at some step. */
  lemma {:induction false} FirstOf(steps: seq<Step>, p: Id, k: nat) returns (j: nat)
    requires k < |steps| && Settles(steps[k], p)
    ensures SettlesFirst(steps, j, p)
  {
    if i :| 0 <= i < k && Settles(steps[i], p) {
      j := FirstOf(steps, p, i);
    } else {
      j := k;
    }
  }

  lemma RejectedIff(steps: seq<Step>, p: Id, reason: Reason)
    requires Legal(steps)
    ensures Of(Run(steps).promises, p) == Rejected(reason) <==> RejectedWith(steps, p, reason)
  {
    OpenIff(steps, p);
    if Of(Run(steps).promises, p) == Rejected(reason) {
      var k :| 0 <= k < |steps| && Settles(steps[k], p);
      var j := FirstOf(steps, p, k);
      OutcomeIs(steps, p, j);
    }
    if j :| 0 <= j < |steps| && SettlesFirst(steps, j, p) && steps[j].outcome == Rejected(reason) {
      OutcomeIs(steps, p, j);
    }
  }

  // ------------------------------------------------------------------ counts

  lemma DescribesExactly(f: Failure, of: Tracked, reason: Reason)
    ensures Describes(f, of, reason) <==> f == FailureOf(of, reason)
  {
  }

  lemma RaisesExactly(s: Step, f: Failure)
    requires s.PageError?
    ensures multiset(PageFailure(s.path, s.message))[f] == if Raises(s, f) then 1 else 0
  {
  }

  ghost function ErrorSteps(steps: seq<Step>, f: Failure): set<int> {
    set i | 0 <= i < |steps| && Raises(steps[i], f)
  }

  ghost function RejectedSteps(steps: seq<Step>, k: nat, f: Failure): set<int>
    requires k <= |steps|
  {
    set i | 0 <= i < k && TracksRejected(steps, i, f)
  }

  lemma {:induction false} ErrorsCounted(steps: seq<Step>, f: Failure)
    ensures multiset(Errors(steps))[f] == |ErrorSteps(steps, f)|
  {
    if steps != [] {
      var init, last := Init(steps), Last(steps);
      ErrorsCounted(init, f);
      if last.PageError? { RaisesExactly(last, f); }
      OneStepRaises(init, last, f);
      assert steps == init + [last];
    }
  }

  lemma OneStepRaises(init: seq<Step>, s: Step, f: Failure)
    ensures |ErrorSteps(init + [s], f)| == |ErrorSteps(init, f)| + if Raises(s, f) then 1 else 0
  {
    var steps := init + [s];
    assert steps[|init|] == s && forall j | 0 <= j < |init| :: steps[j] == init[j];
    OneMore(ErrorSteps(init, f), ErrorSteps(steps, f), |init|, Raises(s, f));
  }

  lemma {:induction false} RejectionsCounted(steps: seq<Step>, k: nat, f: Failure)
    requires Legal(steps) && k <= |steps|
    ensures Rejections(Log(steps[..k]), Run(steps).promises)[f] == |RejectedSteps(steps, k, f)|
  {
    if k > 0 {
      RejectionsCounted(steps, k - 1, f);
      OneStepRejects(steps, k - 1, f);
      OneStepMore(steps, k - 1, f);
    }
  }

  lemma OneStepMore(steps: seq<Step>, i: nat, f: Failure)
    requires i < |steps|
    ensures |RejectedSteps(steps, i + 1, f)| ==
            |RejectedSteps(steps, i, f)| + if TracksRejected(steps, i, f) then 1 else 0
  {
    OneMore(RejectedSteps(steps, i, f), RejectedSteps(steps, i + 1, f), i, TracksRejected(steps, i, f));
  }

  lemma OneMore(a: set<int>, b: set<int>, i: int, more: bool)
    requires i !in a && b == if more then a + {i} else a
    ensures |b| == |a| + if more then 1 else 0
  {
  }

  lemma OneStepRejects(steps: seq<Step>, i: nat, f: Failure)
    requires Legal(steps) && i < |steps|
    ensures Rejections(Log(steps[..i + 1]), Run(steps).promises)[f] ==
            Rejections(Log(steps[..i]), Run(steps).promises)[f] + if TracksRejected(steps, i, f) then 1 else 0
  {
    LogNext(steps, i);
    if steps[i].Track? {
      OneRejection(Log(steps[..i]), steps[i].of, Run(steps).promises, f);
      TracksRejectedIff(steps, i, f);
    }
  }

  lemma LogNext(steps: seq<Step>, i: nat)
    requires i < |steps|
    ensures Log(steps[..i + 1]) == if steps[i].Track? then Log(steps[..i]) + [steps[i].of] else Log(steps[..i])
  {
    assert Init(steps[..i + 1]) == steps[..i] && Last(steps[..i + 1]) == steps[i];
    assert Log(steps[..i]) + [] == Log(steps[..i]);
  }

  lemma OneRejection(log: seq<Tracked>, of: Tracked, promises: map<Id, Promise>, f: Failure)
    ensures Rejections(log + [of], promises)[f] == Rejections(log, promises)[f] +
            if Of(promises, of.p).Rejected? && f == FailureOf(of, Of(promises, of.p).reason) then 1 else 0
  {
    assert (log + [of])[..|log|] == log;
  }

  lemma TracksRejectedIff(steps: seq<Step>, i: nat, f: Failure)
    requires Legal(steps) && i < |steps| && steps[i].Track?
    ensures var was := Of(Run(steps).promises, steps[i].of.p);
            TracksRejected(steps, i, f) <==> was.Rejected? && f == FailureOf(steps[i].of, was.reason)
  {
    var of, was := steps[i].of, Of(Run(steps).promises, steps[i].of.p);
    if was.Rejected? {
      RejectedIff(steps, of.p, was.reason);
      DescribesExactly(f, of, was.reason);
    }
    if reason :| RejectedWith(steps, of.p, reason) && Describes(f, of, reason) {
      RejectedIff(steps, of.p, reason);
      DescribesExactly(f, of, reason);
    }
  }

  /** When settled() returns, each failure is there once for each plugin error that it describes and once for each
      track call of a rejected promise that it describes, and so no other is there. */
  lemma FailuresCounted(steps: seq<Step>, f: Failure)
    requires Returning(steps)
    ensures multiset(Run(steps).wait.failures)[f] ==
            |set i | 0 <= i < |steps| && Raises(steps[i], f)|
            + |set i | 0 <= i < |steps| && TracksRejected(steps, i, f)|
  {
    SettledReportsEverything(steps);
    ErrorsCounted(steps, f);
    RejectionsCounted(steps, |steps|, f);
    assert steps[..|steps|] == steps;
  }

  /** A page on which settled() has returned has come to the step where it did. */
  lemma {:induction false} ReturnedAtAStep(steps: seq<Step>) returns (k: nat)
    requires Legal(steps) && Run(steps).wait.Returned?
    ensures k <= |steps| && Returning(steps[..k])
  {
    if Run(Init(steps)).wait.Returned? {
      k := ReturnedAtAStep(Init(steps));
      assert Init(steps)[..k] == steps[..k];
    } else {
      k := |steps|;
      assert steps[..k] == steps;
    }
  }

  lemma {:induction false} LogHolds(steps: seq<Step>, i: nat)
    requires i < |steps| && steps[i].Track?
    ensures steps[i].of in Log(steps)
  {
    if i < |steps| - 1 {
      LogHolds(Init(steps), i);
    }
  }

  /** Then every promise that was tracked has settled. */
  lemma TrackedHasSettled(steps: seq<Step>, i: nat)
    requires Returning(steps) && i < |steps| && steps[i].Track?
    ensures exists j | 0 <= j < |steps| :: Settles(steps[j], steps[i].of.p)
  {
    SettledReportsEverything(steps);
    LogHolds(steps, i);
    OpenIff(steps, steps[i].of.p);
  }
}
