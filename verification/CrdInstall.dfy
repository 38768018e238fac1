/** The boot-time CRD install as a race of many pods of one binary against a versioned API server. */
module CrdInstall {

  /** A CRD spec, serialised; `desired` below is the one the binary is built with. */
  type Spec = string
  datatype Stored = Absent | Present(spec: Spec, version: nat)

  datatype InstallError = GetFailed | CreateFailed | RefetchFailed | UpdateConflict | UpdateFailed

  /** Where a pod stands in `SetupCustomResourceDefinition`: the call it makes next, or how it returned. */
  datatype Pc = Getting | Creating | Refetching | Updating(version: nat) | Succeeded | Failed(error: InstallError)

  datatype Pod = Pod(pc: Pc, calls: nat)

  /** How a call is answered: by the server's rules, by an error before it took effect, or by an error after. */
  datatype Answer = Served(touch: bool) | LostRequest | LostReply

  datatype State = State(crd: Stored, revision: nat, pods: seq<Pod>)

  datatype Event = Event(pod: nat, answer: Answer)

  /** A write of `desired`; one that changes nothing may leave the version alone (`!touch`). */
  function Written(s: State, desired: Spec, touch: bool): (w: State)
    ensures w.pods == s.pods && w.crd.Present? && w.crd.spec == desired
  {
    if s.crd.Present? && s.crd.spec == desired && !touch then s
    else s.(crd := Present(desired, s.revision + 1), revision := s.revision + 1)
  }

  /** One call of one pod: what happens to the server, and where the pod stands after the reply. */
  function Call(s: State, desired: Spec, pc: Pc, answer: Answer): (State, Pc) {
    match pc
    case Getting =>
      (s, if !answer.Served? then Failed(GetFailed) else if s.crd.Absent? then Creating else Refetching)
    case Creating =>
      if answer.Served? && s.crd.Present? then (s, Refetching)
      else if answer.LostRequest? || s.crd.Present? then (s, Failed(CreateFailed))
      else (Written(s, desired, true), if answer.Served? then Succeeded else Failed(CreateFailed))
    case Refetching =>
      (s, if !answer.Served? || s.crd.Absent? then Failed(RefetchFailed) else Updating(s.crd.version))
    case Updating(version) =>
      if answer.LostRequest? || s.crd.Absent? then (s, Failed(UpdateFailed))
      else if s.crd.version != version then (s, Failed(if answer.Served? then UpdateConflict else UpdateFailed))
      else
        (Written(s, desired, !answer.Served? || answer.touch),
         if answer.Served? then Succeeded else Failed(UpdateFailed))
    case _ => (s, pc)
  }

  predicate Returned(pc: Pc) {
    pc.Succeeded? || pc.Failed?
  }

  function Step(s: State, desired: Spec, e: Event): State {
    if e.pod >= |s.pods| || Returned(s.pods[e.pod].pc) then s
    else
      var (t, pc) := Call(s, desired, s.pods[e.pod].pc, e.answer);
      t.(pods := s.pods[e.pod := Pod(pc, s.pods[e.pod].calls + 1)])
  }

  function Run(s: State, desired: Spec, events: seq<Event>): State {
    if events == [] then s else Step(Run(s, desired, events[..|events| - 1]), desired, events[|events| - 1])
  }

  /** Any number of pods boot against whatever the cluster holds. */
  predicate Booting(s: State) {
    forall i :: 0 <= i < |s.pods| ==> s.pods[i] == Pod(Getting, 0)
  }

  // ---------------------------------------------------------------- the invariant

  /** A pod whose return means that a pod of this binary has written. */
  predicate Vouches(pc: Pc) {
    pc.Succeeded? || pc == Failed(UpdateConflict)
  }

  function MaxCalls(pc: Pc): nat {
    match pc
    case Getting => 0
    case Creating => 1
    case Refetching => 2
    case Updating(_) => 3
    case _ => 4
  }

  predicate PodInv(s: State, desired: Spec, pod: Pod) {
    && (pod.pc.Refetching? || pod.pc.Updating? ==> s.crd.Present?)
    && (pod.pc.Updating? ==> s.crd.version == pod.pc.version || s.crd.spec == desired)
    && (Vouches(pod.pc) ==> s.crd.Present? && s.crd.spec == desired)
    && pod.calls <= MaxCalls(pod.pc)
  }

  predicate Inv(s: State, desired: Spec) {
    forall i :: 0 <= i < |s.pods| ==> PodInv(s, desired, s.pods[i])
  }

  /** The server only moves toward the desired spec: it keeps what it stores, or stores the desired spec. */
  predicate Moves(s: State, t: State, desired: Spec) {
    && |t.pods| == |s.pods|
    && (t.crd == s.crd || (t.crd.Present? && t.crd.spec == desired))
  }

  lemma StepKeepsInv(s: State, desired: Spec, e: Event)
    requires Inv(s, desired)
    ensures Inv(Step(s, desired, e), desired) && Moves(s, Step(s, desired, e), desired)
  {
    var t := Step(s, desired, e);
    if e.pod < |s.pods| && !Returned(s.pods[e.pod].pc) {
      assert PodInv(s, desired, s.pods[e.pod]);
      forall i | 0 <= i < |t.pods| ensures PodInv(t, desired, t.pods[i]) {
        assert PodInv(s, desired, s.pods[i]);
      }
    }
  }

  lemma {:induction false} RunKeepsInv(s: State, desired: Spec, events: seq<Event>)
    requires Booting(s)
    ensures Inv(Run(s, desired, events), desired) && |Run(s, desired, events).pods| == |s.pods|
  {
    if events != [] {
      hide Step, Inv;
      RunKeepsInv(s, desired, events[..|events| - 1]);
      StepKeepsInv(Run(s, desired, events[..|events| - 1]), desired, events[|events| - 1]);
    }
  }

  /** In every interleaving of any number of pods, with calls failing before or after they take effect: once a pod
      has returned success, or failed by a conflict on Update, the stored spec is the desired one, and it stays so. */
  lemma {:induction false} DesiredIsInstalled(s: State, desired: Spec, events: seq<Event>, i: nat, pod: nat)
    requires Booting(s) && i <= |events| && pod < |s.pods|
    requires |Run(s, desired, events[..i]).pods| == |s.pods| && Vouches(Run(s, desired, events[..i]).pods[pod].pc)
    ensures var crd := Run(s, desired, events).crd; crd.Present? && crd.spec == desired
  {
    if i == |events| {
      assert events[..i] == events;
      RunKeepsInv(s, desired, events);
      assert PodInv(Run(s, desired, events), desired, Run(s, desired, events).pods[pod]);
    } else {
      hide Step, Inv;
      var front, last := events[..|events| - 1], events[|events| - 1];
      assert front[..i] == events[..i];
      DesiredIsInstalled(s, desired, front, i, pod);
      RunKeepsInv(s, desired, front);
      StepKeepsInv(Run(s, desired, front), desired, last);
    }
  }

  /** Each pod makes at most four calls, and has returned by the fourth. */
  lemma FourCalls(s: State, desired: Spec, events: seq<Event>, pod: nat)
    requires Booting(s) && pod < |s.pods|
    ensures var t := Run(s, desired, events);
            pod < |t.pods| && t.pods[pod].calls <= 4 && (t.pods[pod].calls == 4 ==> Returned(t.pods[pod].pc))
  {
    RunKeepsInv(s, desired, events);
    assert PodInv(Run(s, desired, events), desired, Run(s, desired, events).pods[pod]);
  }

  function CallsFor(events: seq<Event>, pod: nat): nat {
    if events == [] then 0
    else CallsFor(events[..|events| - 1], pod) + if events[|events| - 1].pod == pod then 1 else 0
  }

  /** What a pod whose calls are all served keeps: it makes a call at each of its steps, and returns only to vouch. */
  predicate Progress(pod: Pod, calls: nat) {
    if Returned(pod.pc) then Vouches(pod.pc) else pod.calls == calls
  }

  lemma ServedStep(s: State, desired: Spec, e: Event, pod: nat, calls: nat)
    requires Inv(s, desired) && pod < |s.pods| && Progress(s.pods[pod], calls) && (e.pod == pod ==> e.answer.Served?)
    ensures Progress(Step(s, desired, e).pods[pod], calls + if e.pod == pod then 1 else 0)
  {
    assert PodInv(s, desired, s.pods[pod]);
  }

  lemma Unstarted()
    ensures Progress(Pod(Getting, 0), 0)
  {
  }

  lemma {:induction false} ServedRun(s: State, desired: Spec, events: seq<Event>, pod: nat)
    requires Booting(s) && pod < |s.pods| && forall e :: e in events && e.pod == pod ==> e.answer.Served?
    ensures |Run(s, desired, events).pods| == |s.pods|
            && Progress(Run(s, desired, events).pods[pod], CallsFor(events, pod))
  {
    hide Progress, Step, Inv;
    RunKeepsInv(s, desired, events);
    if events == [] {
      Unstarted();
    } else {
      var front, last := events[..|events| - 1], events[|events| - 1];
      assert last in events && forall e :: e in front ==> e in events;
      ServedRun(s, desired, front, pod);
      RunKeepsInv(s, desired, front);
      ServedStep(Run(s, desired, front), desired, last, pod, CallsFor(front, pod));
    }
  }

  /** A pod whose own calls are all served, whatever happens to the others: it never fails but by the conflict on Update
      that another pod's write explains, and by its fourth step it has returned with the desired spec stored. */
  lemma ServedCallsSucceed(s: State, desired: Spec, events: seq<Event>, pod: nat)
    requires Booting(s) && pod < |s.pods| && forall e :: e in events && e.pod == pod ==> e.answer.Served?
    ensures var t := Run(s, desired, events);
            && pod < |t.pods| && (t.pods[pod].pc.Failed? ==> t.pods[pod].pc.error == UpdateConflict)
            && (4 <= CallsFor(events, pod) ==> Returned(t.pods[pod].pc))
            && (Returned(t.pods[pod].pc) ==> t.crd.Present? && t.crd.spec == desired)
  {
    hide Run, CallsFor;
    ServedRun(s, desired, events, pod);
    RunKeepsInv(s, desired, events);
    assert PodInv(Run(s, desired, events), desired, Run(s, desired, events).pods[pod]);
  }

  // ---------------------------------------------------------------- failing calls

  /** The error that a pod returns when the call it makes next is not served. */
  function CallError(pc: Pc): InstallError
    requires !Returned(pc)
  {
    match pc
    case Getting => GetFailed
    case Creating => CreateFailed
    case Refetching => RefetchFailed
    case Updating(_) => UpdateFailed
  }

  lemma {:induction false} ReturnedStays(s: State, desired: Spec, events: seq<Event>, i: nat, pod: nat)
    requires i <= |events| && pod < |Run(s, desired, events[..i]).pods|
    requires Returned(Run(s, desired, events[..i]).pods[pod].pc)
    ensures pod < |Run(s, desired, events).pods|
            && Run(s, desired, events).pods[pod] == Run(s, desired, events[..i]).pods[pod]
  {
    if i == |events| {
      assert events[..i] == events;
    } else {
      var front := events[..|events| - 1];
      assert front[..i] == events[..i];
      ReturnedStays(s, desired, front, i, pod);
    }
  }

  lemma UnservedStep(s: State, desired: Spec, e: Event)
    requires e.pod < |s.pods| && !Returned(s.pods[e.pod].pc) && !e.answer.Served?
    ensures var pod := s.pods[e.pod]; var t := Step(s, desired, e);
            && t.pods == s.pods[e.pod := Pod(Failed(CallError(pod.pc)), pod.calls + 1)]
            && (t.crd != s.crd ==> e.answer.LostReply? && t.crd.Present? && t.crd.spec == desired)
            && (e.answer.LostReply? && pod.pc.Creating? && s.crd.Absent? ==> t.crd.Present? && t.crd.spec == desired)
            && (e.answer.LostReply? && pod.pc.Updating? && s.crd.Present? && s.crd.version == pod.pc.version ==>
                  t.crd.Present? && t.crd.spec == desired)
  {
  }

  lemma RunOneMore(s: State, desired: Spec, events: seq<Event>, i: nat)
    requires i < |events|
    ensures Run(s, desired, events[..i + 1]) == Step(Run(s, desired, events[..i]), desired, events[i])
  {
    hide Step;
    assert events[..i + 1][..i] == events[..i] && events[..i + 1][i] == events[i];
  }

  /** A call that is not served is a pod's last one: it returns that call's error, and makes no further call however the
      run goes on. The server has taken the write of a lost reply, and nothing of a lost request. */
  lemma UnservedCallEndsPod(s: State, desired: Spec, events: seq<Event>, i: nat)
    requires i < |events| && !events[i].answer.Served?
    requires var before := Run(s, desired, events[..i]);
             events[i].pod < |before.pods| && !Returned(before.pods[events[i].pod].pc)
    ensures var before, after := Run(s, desired, events[..i]), Run(s, desired, events);
            var pod := events[i].pod;
            && pod < |after.pods|
            && after.pods[pod] == Pod(Failed(CallError(before.pods[pod].pc)), before.pods[pod].calls + 1)
    ensures var before, after := Run(s, desired, events[..i]), Run(s, desired, events[..i + 1]);
            && (events[i].answer.LostRequest? ==> after.crd == before.crd)
            && (events[i].answer.LostReply? && before.pods[events[i].pod].pc.Creating? && before.crd.Absent? ==>
                  after.crd.Present? && after.crd.spec == desired)
  {
    RunOneMore(s, desired, events, i);
    UnservedStep(Run(s, desired, events[..i]), desired, events[i]);
    hide Step;
    ReturnedStays(s, desired, events, i + 1, events[i].pod);
  }

  /** The server has given out no version beyond its revision. */
  predicate Versioned(s: State) {
    s.crd.Present? ==> s.crd.version <= s.revision
  }

  lemma VersionStep(s: State, desired: Spec, e: Event)
    requires Versioned(s)
    ensures var t := Step(s, desired, e);
            && Versioned(t) && s.revision <= t.revision
            && (t.crd != s.crd ==> t.crd.Present? && s.revision < t.crd.version)
  {
  }

  /** A version stands for one content: whenever what is stored changes, it gets a version above all earlier ones. */
  lemma {:induction false} VersionsAreNew(s: State, desired: Spec, events: seq<Event>, i: nat)
    requires Versioned(s) && i <= |events|
    ensures var before, after := Run(s, desired, events[..i]), Run(s, desired, events);
            && Versioned(after) && before.revision <= after.revision
            && (after.crd != before.crd ==> after.crd.Present? && before.revision < after.crd.version)
  {
    hide Step;
    if events != [] {
      var front, last := events[..|events| - 1], events[|events| - 1];
      VersionsAreNew(s, desired, front, if i < |events| then i else 0);
      VersionStep(Run(s, desired, front), desired, last);
      if i < |events| {
        assert front[..i] == events[..i];
      } else {
        assert events[..i] == events;
      }
    }
  }

  /** An update changes what is stored only if it still has the version that the pod has read, and otherwise conflicts.
      */
  lemma UpdateIsConditional(s: State, desired: Spec, e: Event, version: nat)
    requires e.pod < |s.pods| && s.pods[e.pod].pc == Updating(version) && s.crd.Present?
    ensures var t := Step(s, desired, e); var pc := t.pods[e.pod].pc;
            && (t.crd != s.crd ==> s.crd.version == version)
            && (e.answer.Served? ==> (pc == Succeeded <==> s.crd.version == version))
            && (e.answer.Served? ==> (pc == Failed(UpdateConflict) <==> s.crd.version != version))
  {
  }

  /** A pod alone, with every call served, needs two calls where there is no CRD and three where there is one. */
  lemma AloneSucceeds(s: State, desired: Spec, events: seq<Event>, pod: nat)
    requires Booting(s) && pod < |s.pods| && 3 <= |events|
    requires forall e :: e in events ==> e.pod == pod && e.answer.Served?
    ensures var t := Run(s, desired, events);
            && pod < |t.pods| && t.pods[pod] == Pod(Succeeded, if s.crd.Absent? then 2 else 3)
            && t.crd.Present? && t.crd.spec == desired
  {
    assert events[0] in events && events[1] in events && events[2] in events && events[..0] == [];
    var one := Run(s, desired, events[..1]);
    var two := Run(s, desired, events[..2]);
    var three := Run(s, desired, events[..3]);
    RunOneMore(s, desired, events, 0);
    RunOneMore(s, desired, events, 1);
    RunOneMore(s, desired, events, 2);
    assert one.pods[pod] == Pod(if s.crd.Absent? then Creating else Refetching, 1) && one.crd == s.crd;
    assert two.pods[pod] == Pod(if s.crd.Absent? then Succeeded else Updating(s.crd.version), 2);
    assert three.pods[pod] == Pod(Succeeded, if s.crd.Absent? then 2 else 3);
    hide Step, Run;
    ReturnedStays(s, desired, events, 3, pod);
    DesiredIsInstalled(s, desired, events, 3, pod);
  }
}
