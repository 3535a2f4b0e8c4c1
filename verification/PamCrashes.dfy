/**
 A recovery code whose directory sync failed: the answer was an error, the file without the
 code is in place, but a crash may bring the old file back.
 */
module PamCrashes {
  import opened Digests
  import opened Options
  import opened PamMfa
  import opened PamRuns

  lemma {:induction false} RunKeepsInvFrom(states: seq<State>, steps: seq<Step>, enrolled: Files, digestOf: CodeDigest)
    requires Run(states, steps, digestOf) && Inv(states[0], enrolled, digestOf)
    ensures Inv(states[|steps|], enrolled, digestOf)
    decreases |steps|
  {
    if steps != [] {
      var n := |steps| - 1;
      RunKeepsInvFrom(states[..n + 1], steps[..n], enrolled, digestOf);
      StepKeepsInv(states[n], steps[n], enrolled, digestOf);
    }
  }

  // ----- One code through a run -----

  /** What matters of a state for one code: its listings, its successful answers, and whether a
      call is about to use it. */
  datatype View = View(visible: nat, durable: nat, uses: nat, inUse: bool)

  ghost predicate InUse(s: State, u: string, d: Digest) {
    exists i :: 0 <= i < |s.threads| && Using(s.threads[i], u, d)
  }

  ghost function ViewOf(s: State, u: string, d: Digest, digestOf: CodeDigest): View {
    View(Count(s.visible, u, d), Count(s.durable, u, d), Uses(s.answers, u, d, digestOf), InUse(s, u, d))
  }

  predicate Sound(v: View) {
    v.visible <= v.durable && (v.inUse ==> v.durable > 0)
  }

  predicate Moves(v: View, step: Step, v': View, u: string, d: Digest) {
    match step
    case Crash(left) =>
      v.visible <= Count(left, u, d) <= v.durable && v' == View(Count(left, u, d), Count(left, u, d), v.uses, false)
    case SyncSucceeds(_) =>
      v' == View(v.visible, v.visible, v.uses + (if v.inUse then 1 else 0), false)
    case _ =>
      && v'.durable == v.durable && v'.uses == v.uses
      && v'.visible <= v.visible && (v'.inUse ==> v.inUse || v.visible > 0)
  }

  lemma SoundView(s: State, enrolled: Files, u: string, d: Digest, digestOf: CodeDigest)
    requires Inv(s, enrolled, digestOf)
    ensures Sound(ViewOf(s, u, d, digestOf))
  {
    assert Conserved(s, enrolled, u, d, digestOf);
    if InUse(s, u, d) {
      var i :| 0 <= i < |s.threads| && Using(s.threads[i], u, d);
      assert HolderCurrent(s, s.threads[i], digestOf);
    }
  }

  lemma FilesMove(s: State, step: Step, u: string, d: Digest, digestOf: CodeDigest)
    requires Enabled(s, step) && HoldersCurrent(s, digestOf) && !step.Crash? && !step.SyncSucceeds?
    ensures var after := Next(s, step, digestOf);
            after.durable == s.durable && after.answers == s.answers && Count(after.visible, u, d) <= Count(s.visible, u, d)
  {
    if step.Rename? {
      assert HolderCurrent(s, s.threads[step.t], digestOf);
      RenameTakesOne(s, step.t, u, d, digestOf);
    }
  }

  lemma UsersMove(s: State, step: Step, u: string, d: Digest, digestOf: CodeDigest)
    requires Enabled(s, step) && Count(s.visible, u, d) == 0 && !InUse(s, u, d)
    ensures !InUse(Next(s, step, digestOf), u, d)
  {
    var after := Next(s, step, digestOf);
    forall i | 0 <= i < |after.threads|
      ensures !Using(after.threads[i], u, d)
    {
      assert !Using(s.threads[i], u, d);
    }
  }

  lemma SyncMoves(s: State, t: nat, u: string, d: Digest, digestOf: CodeDigest)
    requires Enabled(s, SyncSucceeds(t)) && HoldersCurrent(s, digestOf) && Gated(s)
    ensures Moves(ViewOf(s, u, d, digestOf), SyncSucceeds(t), ViewOf(Next(s, SyncSucceeds(t), digestOf), u, d, digestOf), u, d)
  {
    assert HolderCurrent(s, s.threads[t], digestOf);
    AnswerCounts(s, t, u, d, digestOf);
    assert s.gate == Some(t);
    assert InUse(s, u, d) <==> Using(s.threads[t], u, d);
  }

  lemma CrashMoves(s: State, left: Files, u: string, d: Digest, digestOf: CodeDigest)
    requires Enabled(s, Crash(left))
    ensures Moves(ViewOf(s, u, d, digestOf), Crash(left), ViewOf(Next(s, Crash(left), digestOf), u, d, digestOf), u, d)
  {
  }

  lemma StepMoves(s: State, step: Step, enrolled: Files, u: string, d: Digest, digestOf: CodeDigest)
    requires Enabled(s, step) && Inv(s, enrolled, digestOf)
    ensures Moves(ViewOf(s, u, d, digestOf), step, ViewOf(Next(s, step, digestOf), u, d, digestOf), u, d)
  {
    if step.Crash? {
      CrashMoves(s, step.left, u, d, digestOf);
    } else if step.SyncSucceeds? {
      SyncMoves(s, step.t, u, d, digestOf);
    } else {
      FilesMove(s, step, u, d, digestOf);
      if Count(s.visible, u, d) == 0 && !InUse(s, u, d) {
        UsersMove(s, step, u, d, digestOf);
      }
    }
  }

  ghost function Views(states: seq<State>, u: string, d: Digest, digestOf: CodeDigest): (views: seq<View>)
    ensures |views| == |states| && forall i :: 0 <= i < |states| ==> views[i] == ViewOf(states[i], u, d, digestOf)
  {
    seq(|states|, i requires 0 <= i < |states| => ViewOf(states[i], u, d, digestOf))
  }

  predicate ViewRun(views: seq<View>, steps: seq<Step>, u: string, d: Digest) {
    && |views| == |steps| + 1
    && (forall i :: 0 <= i < |views| ==> Sound(views[i]))
    && forall i :: 0 <= i < |steps| ==> Moves(views[i], steps[i], views[i + 1], u, d)
  }

  lemma RunViews(states: seq<State>, steps: seq<Step>, enrolled: Files, u: string, d: Digest, digestOf: CodeDigest)
    requires Run(states, steps, digestOf) && Inv(states[0], enrolled, digestOf)
    ensures ViewRun(Views(states, u, d, digestOf), steps, u, d)
  {
    var views := Views(states, u, d, digestOf);
    forall i | 0 <= i < |states|
      ensures Sound(views[i])
    {
      RunKeepsInvFrom(states[..i + 1], steps[..i], enrolled, digestOf);
      SoundView(states[i], enrolled, u, d, digestOf);
    }
    forall i | 0 <= i < |steps|
      ensures Moves(views[i], steps[i], views[i + 1], u, d)
    {
      RunKeepsInvFrom(states[..i + 1], steps[..i], enrolled, digestOf);
      StepMoves(states[i], steps[i], enrolled, u, d, digestOf);
    }
  }

  /** A code that is not durably listed never succeeds again and is never listed again. */
  lemma {:induction false} GoneForGood(views: seq<View>, steps: seq<Step>, u: string, d: Digest)
    requires ViewRun(views, steps, u, d) && views[0].durable == 0
    ensures views[|steps|].durable == 0 && views[|steps|].uses == views[0].uses
    decreases |steps|
  {
    if steps != [] {
      var n := |steps| - 1;
      GoneForGood(views[..n + 1], steps[..n], u, d);
      assert Sound(views[n]) && Moves(views[n], steps[n], views[n + 1], u, d);
    }
  }

  // ----- What a code needs to succeed -----

  /** Nobody holds the gate, `t` is free to call, and the text spells a listed code. */
  predicate Listed(s: State, t: nat, u: string, typed: string, digestOf: CodeDigest) {
    && t < |s.threads| && s.threads[t].Idle? && s.gate.None?
    && Decides(s.visible, u, typed, digestOf).UseCode?
  }

  /** A listed code that is typed is found. */
  lemma ListedReads(s: State, t: nat, u: string, typed: string, digestOf: CodeDigest) returns (states: seq<State>)
    requires Listed(s, t, u, typed, digestOf)
    ensures Run(states, [Call(t, u, typed), Acquire(t), Read(t)], digestOf) && states[0] == s
    ensures var d := Decides(s.visible, u, typed, digestOf).digest;
            var credential := s.visible[u];
            states[3] == s.(threads := s.threads[t := Writing(u, typed, d, credential.(digests := Without(credential.digests, d)))],
                            gate := Some(t), tried := s.tried + {(u, typed)})
  {
    var s1 := Next(s, Call(t, u, typed), digestOf);
    var s2 := Next(s1, Acquire(t), digestOf);
    var s3 := Next(s2, Read(t), digestOf);
    states := [s, s1, s2, s3];
  }

  /** A listed code that is typed gets its file replaced; it succeeds when the sync does. */
  lemma ListedCall(s: State, t: nat, u: string, typed: string, write: Write, digestOf: CodeDigest) returns (states: seq<State>)
    requires Listed(s, t, u, typed, digestOf) && write != NotRenamed
    ensures Run(states, SoloSteps(t, u, typed, true, write), digestOf) && states[0] == s
    ensures var d := Decides(s.visible, u, typed, digestOf).digest;
            var last, credential := states[5], s.visible[u];
            last == s.(visible := s.visible[u := credential.(digests := Without(credential.digests, d))],
                       durable := last.durable,
                       tried := s.tried + {(u, typed)}, renamed := s.renamed + multiset{(u, d)},
                       answers := if write == Written then s.answers + [(u, typed)] else s.answers)
    ensures write == NotSynced ==> states[5].durable == s.durable
  {
    var begun := ListedReads(s, t, u, typed, digestOf);
    var s3, sync := begun[3], if write == Written then SyncSucceeds(t) else SyncFails(t);
    var s4 := Next(s3, Rename(t), digestOf);
    var s5 := Next(s4, sync, digestOf);
    assert s5.threads == s.threads;
    Join(begun, [Call(t, u, typed), Acquire(t), Read(t)], [s3, s4, s5], [Rename(t), sync], digestOf);
    states := begun + [s3, s4, s5][1..];
    assert states[5] == s5;
  }

  /** Some continuation has one more successful answer for the code. */
  ghost predicate CanSucceed(s: State, u: string, d: Digest, digestOf: CodeDigest) {
    exists states: seq<State>, steps: seq<Step> :: Run(states, steps, digestOf) && states[0] == s
                            && Uses(states[|steps|].answers, u, d, digestOf) > Uses(s.answers, u, d, digestOf)
  }

  lemma UsesOneMore(answers: seq<(string, string)>, u: string, typed: string, d: Digest, digestOf: CodeDigest)
    requires CodeTyped(u, typed, digestOf) == Some(d)
    ensures Uses(answers + [(u, typed)], u, d, digestOf) == Uses(answers, u, d, digestOf) + 1
  {
    assert (answers + [(u, typed)])[..|answers|] == answers;
  }

  /** A crash now may leave the durable files. */
  lemma CrashToDurable(s: State, enrolled: Files, digestOf: CodeDigest)
    requires Inv(s, enrolled, digestOf)
    ensures Enabled(s, Crash(s.durable))
  {
    forall u, d
      ensures Count(s.visible, u, d) <= Count(s.durable, u, d)
    {
      assert Conserved(s, enrolled, u, d, digestOf);
    }
  }

  lemma Join(states: seq<State>, steps: seq<Step>, more: seq<State>, further: seq<Step>, digestOf: CodeDigest)
    requires Run(states, steps, digestOf) && Run(more, further, digestOf) && more[0] == states[|steps|]
    ensures Run(states + more[1..], steps + further, digestOf)
    ensures (states + more[1..])[|steps + further|] == more[|further|]
  {
    var all, every := states + more[1..], steps + further;
    forall i | 0 <= i < |every|
      ensures Enabled(all[i], every[i]) && all[i + 1] == Next(all[i], every[i], digestOf)
    {
      if i >= |steps| {
        var j := i - |steps|;
        assert all[i] == more[j] && all[i + 1] == more[j + 1] && every[i] == further[j];
        assert Enabled(more[j], further[j]) && more[j + 1] == Next(more[j], further[j], digestOf);
      }
    }
  }

  lemma DurableCanSucceed(s: State, u: string, typed: string, d: Digest, digestOf: CodeDigest)
    requires Enabled(s, Crash(s.durable)) && s.threads != [] && CodeTyped(u, typed, digestOf) == Some(d)
    requires Count(s.durable, u, d) > 0 && s.durable[u].username == u
    ensures CanSucceed(s, u, d, digestOf)
  {
    var crash := Crash(s.durable);
    var crashed := Next(s, crash, digestOf);
    assert Listed(crashed, 0, u, typed, digestOf);
    var solo := ListedCall(crashed, 0, u, typed, Written, digestOf);
    Join([s, crashed], [crash], solo, SoloSteps(0, u, typed, true, Written), digestOf);
    UsesOneMore(s.answers, u, typed, d, digestOf);
    var states, steps := [s, crashed] + solo[1..], [crash] + SoloSteps(0, u, typed, true, Written);
    assert states[0] == s && states[|steps|] == solo[5];
  }

  lemma GoneCannotSucceed(s: State, enrolled: Files, u: string, d: Digest, digestOf: CodeDigest)
    requires Inv(s, enrolled, digestOf) && Count(s.durable, u, d) == 0
    ensures !CanSucceed(s, u, d, digestOf)
  {
    forall states: seq<State>, steps: seq<Step> | Run(states, steps, digestOf) && states[0] == s
      ensures Uses(states[|steps|].answers, u, d, digestOf) == Uses(s.answers, u, d, digestOf)
    {
      RunViews(states, steps, enrolled, u, d, digestOf);
      GoneForGood(Views(states, u, d, digestOf), steps, u, d);
    }
  }

  /** In every reachable state a code can still succeed if and only if it is durably listed. */
  lemma CanSucceedExactlyWhileDurable(s: State, enrolled: Files, u: string, typed: string, d: Digest, digestOf: CodeDigest)
    requires Inv(s, enrolled, digestOf) && s.threads != [] && CodeTyped(u, typed, digestOf) == Some(d)
    ensures CanSucceed(s, u, d, digestOf) <==> Count(s.durable, u, d) > 0
  {
    if Count(s.durable, u, d) > 0 {
      CrashToDurable(s, enrolled, digestOf);
      DurableCanSucceed(s, u, typed, d, digestOf);
    } else {
      GoneCannotSucceed(s, enrolled, u, d, digestOf);
    }
  }

  // ----- After a failed sync -----

  /** The code is not listed and no call is about to use it. */
  predicate Spent(v: View) {
    v.visible == 0 && !v.inUse
  }

  /** Step `k` is a crash that brings the code back, and no sync succeeded between `i` and it. */
  predicate RestoredAt(steps: seq<Step>, i: int, k: int, u: string, d: Digest) {
    && 0 <= i < k < |steps| && steps[k].Crash? && Count(steps[k].left, u, d) > 0
    && forall j :: i < j < k ==> !steps[j].SyncSucceeds?
  }

  /** The code is still spent, with nothing durable once a sync succeeded after step `i`. */
  predicate StillSpent(v: View, before: View, steps: seq<Step>, i: nat) {
    && Spent(v) && v.uses == before.uses
    && (v.durable == 0 || forall j :: i < j < |steps| ==> !steps[j].SyncSucceeds?)
  }

  lemma {:induction false} SpentUnlessRestored(views: seq<View>, steps: seq<Step>, i: nat, u: string, d: Digest)
    requires ViewRun(views, steps, u, d) && i < |steps| && Spent(views[i + 1])
    ensures (exists k :: RestoredAt(steps, i, k, u, d)) || StillSpent(views[|steps|], views[i + 1], steps, i)
    decreases |steps|
  {
    var n := |steps| - 1;
    if i < n {
      var earlier := steps[..n];
      SpentUnlessRestored(views[..n + 1], earlier, i, u, d);
      if k :| RestoredAt(earlier, i, k, u, d) {
        assert RestoredAt(steps, i, k, u, d);
      } else {
        assert Sound(views[n]) && Moves(views[n], steps[n], views[n + 1], u, d);
        assert StillSpent(views[n], views[i + 1], earlier, i);
        if steps[n].Crash? && Count(steps[n].left, u, d) > 0 {
          assert forall j :: i < j < n ==> steps[j] == earlier[j];
          assert RestoredAt(steps, i, n, u, d);
        }
      }
    }
  }

  lemma FailedSyncSpends(s: State, t: nat, enrolled: Files, u: string, d: Digest, digestOf: CodeDigest)
    requires Inv(s, enrolled, digestOf) && Count(enrolled, u, d) <= 1
    requires t < |s.threads| && s.threads[t].Renamed? && Using(s.threads[t], u, d)
    ensures Spent(ViewOf(Next(s, SyncFails(t), digestOf), u, d, digestOf))
  {
    assert HolderCurrent(s, s.threads[t], digestOf);
    assert Conserved(s, enrolled, u, d, digestOf);
    assert s.gate == Some(t);
  }

  /** A code enrolled once whose sync failed at step `i` succeeds later only if a crash restores
      the old file before any directory sync succeeds. */
  lemma FailedSyncNeedsCrash(states: seq<State>, steps: seq<Step>, enrolled: Files, i: nat, u: string, d: Digest, digestOf: CodeDigest)
    requires Run(states, steps, digestOf) && Fresh(states[0], enrolled) && Count(enrolled, u, d) <= 1
    requires i < |steps| && steps[i].SyncFails? && Using(states[i].threads[steps[i].t], u, d)
    ensures Uses(states[|steps|].answers, u, d, digestOf) > Uses(states[i].answers, u, d, digestOf)
        ==> exists k :: RestoredAt(steps, i, k, u, d)
  {
    RunKeepsInv(states[..i + 1], steps[..i], enrolled, digestOf);
    RunKeepsInv(states[..1], [], enrolled, digestOf);
    RunViews(states, steps, enrolled, u, d, digestOf);
    assert states[i + 1] == Next(states[i], steps[i], digestOf);
    FailedSyncSpends(states[i], steps[i].t, enrolled, u, d, digestOf);
    SpentUnlessRestored(Views(states, u, d, digestOf), steps, i, u, d);
  }

  /** And then it can: after such a crash the code is listed and a call that types it succeeds. */
  lemma RestoredCodeCanSucceed(states: seq<State>, steps: seq<Step>, enrolled: Files, k: nat, u: string, typed: string,
                               d: Digest, digestOf: CodeDigest)
    requires Run(states, steps, digestOf) && Fresh(states[0], enrolled) && states[0].threads != []
    requires k < |steps| && steps[k].Crash? && Count(steps[k].left, u, d) > 0
    requires CodeTyped(u, typed, digestOf) == Some(d)
    ensures CanSucceed(states[k + 1], u, d, digestOf)
  {
    RunKeepsInv(states[..k + 2], steps[..k + 1], enrolled, digestOf);
    ThreadsStay(states[..k + 2], steps[..k + 1], digestOf);
    CanSucceedExactlyWhileDurable(states[k + 1], enrolled, u, typed, d, digestOf);
  }

  lemma ThreadsStayOnce(s: State, step: Step, digestOf: CodeDigest)
    requires Enabled(s, step)
    ensures |Next(s, step, digestOf).threads| == |s.threads|
  {
  }

  lemma {:induction false} ThreadsStay(states: seq<State>, steps: seq<Step>, digestOf: CodeDigest)
    requires Run(states, steps, digestOf)
    ensures |states[|steps|].threads| == |states[0].threads|
    decreases |steps|
  {
    if steps != [] {
      var n := |steps| - 1;
      ThreadsStay(states[..n + 1], steps[..n], digestOf);
      ThreadsStayOnce(states[n], steps[n], digestOf);
    }
  }

  /** A run in which a code's sync fails, a crash follows, and the same code then succeeds. */
  lemma FailedSyncThenSuccess(enrolled: Files, u: string, typed: string, digestOf: CodeDigest)
    returns (states: seq<State>, steps: seq<Step>)
    requires Decides(enrolled, u, typed, digestOf).UseCode?
    requires forall v :: v in enrolled ==> enrolled[v].username == v
    ensures Run(states, steps, digestOf) && Fresh(states[0], enrolled)
    ensures steps == SoloSteps(0, u, typed, true, NotSynced) + [Crash(enrolled)] + SoloSteps(0, u, typed, true, Written)
    ensures states[|steps|].answers == [(u, typed)]
  {
    var s := State(enrolled, enrolled, None, [Idle], [], multiset{}, {});
    states := ListedCall(s, 0, u, typed, NotSynced, digestOf);
    steps := SoloSteps(0, u, typed, true, NotSynced);
    var failed, crash := states[5], Crash(enrolled);
    OldFileCanReturn(failed, enrolled, u, Decides(enrolled, u, typed, digestOf).digest);
    var crashed := Next(failed, crash, digestOf);
    Join(states, steps, [failed, crashed], [crash], digestOf);
    states, steps := states + [crashed], steps + [crash];
    var again := ListedCall(crashed, 0, u, typed, Written, digestOf);
    Join(states, steps, again, SoloSteps(0, u, typed, true, Written), digestOf);
    states, steps := states + again[1..], steps + SoloSteps(0, u, typed, true, Written);
  }

  lemma OldFileCanReturn(s: State, enrolled: Files, u: string, d: Digest)
    requires u in enrolled && d in enrolled[u].digests && s.durable == enrolled
    requires s.visible == enrolled[u := enrolled[u].(digests := Without(enrolled[u].digests, d))]
    ensures Enabled(s, Crash(enrolled))
  {
    WithoutRemovesOne(enrolled[u].digests, d);
  }
}
