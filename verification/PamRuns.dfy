/**
 Concurrent verification against one credential store: the gate, the read, the atomic
 write that may fail at any point, and crashes that undo what was not yet durable.
 */
module PamRuns {
  import opened Digests
  import opened Options
  import opened PamMfa
  import opened RecoveryCodes

  /** Where a call of `verify` is. */
  datatype Thread =
    | Idle
    | Waiting(user: string, typed: string)                                       // before the gate
    | Reading(user: string, typed: string)                                       // holds the gate
    | Writing(user: string, typed: string, digest: Digest, next: Credential)     // found the code, file not replaced
    | Renamed(user: string, typed: string, digest: Digest)                       // file replaced, directory not synced

  predicate Critical(t: Thread) {
    t.Reading? || t.Writing? || t.Renamed?
  }

  /** The call is about to use up this code. */
  predicate Using(t: Thread, u: string, d: Digest) {
    (t.Writing? || t.Renamed?) && t.user == u && t.digest == d
  }

  datatype State = State(
    visible: Files,                                // what a read finds
    durable: Files,                                // what a crash cannot undo
    gate: Option<nat>,
    threads: seq<Thread>,
    answers: seq<(string, string)>,                // trace: user and text of every Ok(Recovery)
    renamed: multiset<(string, Digest)>,           // trace: files replaced to use up a code
    tried: set<(string, string)>)                  // trace: users and texts passed to `verify`

  datatype Step =
    | Call(t: nat, user: string, typed: string)
    | Acquire(t: nat)
    | ReadFails(t: nat)
    | Read(t: nat)
    | WriteFails(t: nat)
    | Rename(t: nat)
    | SyncFails(t: nat)
    | SyncSucceeds(t: nat)
    | Crash(left: Files)

  function Count(files: Files, u: string, d: Digest): nat {
    if u in files then multiset(files[u].digests)[d] else 0
  }

  /** How many of the answers accepted this code. */
  function Uses(answers: seq<(string, string)>, u: string, d: Digest, digestOf: CodeDigest): nat {
    if answers == [] then 0
    else
      var n := |answers| - 1;
      Uses(answers[..n], u, d, digestOf)
      + if answers[n].0 == u && CodeTyped(u, answers[n].1, digestOf) == Some(d) then 1 else 0
  }

  /** A crash leaves each file in a version between the durable and the visible one. */
  ghost predicate CrashLeaves(s: State, left: Files) {
    && left.Keys == s.visible.Keys
    && (forall u :: u in left ==> u in s.durable && left[u].username == s.durable[u].username && left[u].sealedSeed == s.durable[u].sealedSeed)
    && (forall u, d :: Count(s.visible, u, d) <= Count(left, u, d) <= Count(s.durable, u, d))
  }

  ghost predicate Enabled(s: State, step: Step) {
    match step
    case Call(t, _, _) => t < |s.threads| && s.threads[t].Idle?
    case Acquire(t) => t < |s.threads| && s.threads[t].Waiting? && s.gate.None?
    case ReadFails(t) => t < |s.threads| && s.threads[t].Reading?
    case Read(t) => t < |s.threads| && s.threads[t].Reading?
    case WriteFails(t) => t < |s.threads| && s.threads[t].Writing?
    case Rename(t) => t < |s.threads| && s.threads[t].Writing?
    case SyncFails(t) => t < |s.threads| && s.threads[t].Renamed?
    case SyncSucceeds(t) => t < |s.threads| && s.threads[t].Renamed?
    case Crash(left) => CrashLeaves(s, left)
  }

  function At(s: State, t: nat, thread: Thread): State
    requires t < |s.threads|
  {
    s.(threads := s.threads[t := thread])
  }

  /** The call returns and releases the gate. */
  function Returns(s: State, t: nat): State
    requires t < |s.threads|
  {
    At(s, t, Idle).(gate := None)
  }

  /** What reading the credential of a user decides; TOTP codes are answered without a write. */
  function Decides(files: Files, u: string, typed: string, digestOf: CodeDigest): Checked {
    if u in files then Check(files[u], typed, false, digestOf) else UnknownCode
  }

  ghost function Next(s: State, step: Step, digestOf: CodeDigest): State
    requires Enabled(s, step)
  {
    match step
    case Call(t, u, typed) => At(s, t, Waiting(u, typed)).(tried := s.tried + {(u, typed)})
    case Acquire(t) => At(s, t, Reading(s.threads[t].user, s.threads[t].typed)).(gate := Some(t))
    case ReadFails(t) => Returns(s, t)
    case Read(t) =>
      var u, typed := s.threads[t].user, s.threads[t].typed;
      var decided := Decides(s.visible, u, typed, digestOf);
      if decided.UseCode?
      then At(s, t, Writing(u, typed, decided.digest, s.visible[u].(digests := Without(s.visible[u].digests, decided.digest))))
      else Returns(s, t)
    case WriteFails(t) => Returns(s, t)
    case Rename(t) =>
      var thread := s.threads[t];
      At(s, t, Renamed(thread.user, thread.typed, thread.digest)).(
        visible := s.visible[thread.user := thread.next],
        renamed := s.renamed + multiset{(thread.user, thread.digest)})
    case SyncFails(t) => Returns(s, t)
    case SyncSucceeds(t) =>
      Returns(s, t).(durable := s.visible, answers := s.answers + [(s.threads[t].user, s.threads[t].typed)])
    case Crash(left) => s.(visible := left, durable := left, gate := None, threads := seq(|s.threads|, _ => Idle))
  }

  ghost predicate Run(states: seq<State>, steps: seq<Step>, digestOf: CodeDigest) {
    && |states| == |steps| + 1
    && forall i :: 0 <= i < |steps| ==> Enabled(states[i], steps[i]) && states[i + 1] == Next(states[i], steps[i], digestOf)
  }

  /** No call has been made on the enrolled files yet. */
  predicate Fresh(s: State, enrolled: Files) {
    && s.visible == s.durable == enrolled
    && (forall u :: u in enrolled ==> enrolled[u].username == u)
    && s.gate.None? && (forall i :: 0 <= i < |s.threads| ==> s.threads[i].Idle?)
    && s.answers == [] && s.renamed == multiset{} && s.tried == {}
  }

  // ----- What every step keeps -----

  /** Only the holder of the gate is between reading and returning. */
  predicate Gated(s: State) {
    forall i :: 0 <= i < |s.threads| ==> (Critical(s.threads[i]) <==> s.gate == Some(i))
  }

  /** The holder's plan is still current, and a replaced file has one code less. */
  predicate HolderCurrent(s: State, t: Thread, digestOf: CodeDigest) {
    match t
    case Writing(u, typed, d, next) =>
      && CodeTyped(u, typed, digestOf) == Some(d)
      && u in s.visible && d in s.visible[u].digests
      && next == s.visible[u].(digests := Without(s.visible[u].digests, d))
    case Renamed(u, typed, d) =>
      CodeTyped(u, typed, digestOf) == Some(d) && Count(s.visible, u, d) < Count(s.durable, u, d)
    case _ => true
  }

  predicate HoldersCurrent(s: State, digestOf: CodeDigest) {
    forall i :: 0 <= i < |s.threads| ==> HolderCurrent(s, s.threads[i], digestOf)
  }

  /** Calls go back to texts that were passed to `verify`. */
  predicate CallsTraced(s: State) {
    forall i :: 0 <= i < |s.threads| && !s.threads[i].Idle? ==> (s.threads[i].user, s.threads[i].typed) in s.tried
  }

  /** And so do replaced files. */
  ghost predicate RenamesTraced(s: State, digestOf: CodeDigest) {
    forall u, d :: (u, d) in s.renamed ==> Tried(s, u, d, digestOf)
  }

  /** Some text that spells this code was passed to `verify`. */
  ghost predicate Tried(s: State, u: string, d: Digest, digestOf: CodeDigest) {
    exists typed :: (u, typed) in s.tried && CodeTyped(u, typed, digestOf) == Some(d)
  }

  /** Seeds and owners are as enrolled. */
  predicate Untouched(files: Files, enrolled: Files) {
    && files.Keys == enrolled.Keys
    && forall u :: u in files ==> files[u].username == enrolled[u].username == u && files[u].sealedSeed == enrolled[u].sealedSeed
  }

  /** Uses and remaining listings of a code never add up to more than was enrolled, and its
      listings fall only by renames of its own. */
  predicate Conserved(s: State, enrolled: Files, u: string, d: Digest, digestOf: CodeDigest) {
    && Count(s.visible, u, d) <= Count(s.durable, u, d)
    && Uses(s.answers, u, d, digestOf) + Count(s.durable, u, d) <= Count(enrolled, u, d)
    && Count(enrolled, u, d) <= Count(s.visible, u, d) + s.renamed[(u, d)]
  }

  ghost predicate Inv(s: State, enrolled: Files, digestOf: CodeDigest) {
    && Gated(s) && HoldersCurrent(s, digestOf) && CallsTraced(s) && RenamesTraced(s, digestOf)
    && Untouched(s.visible, enrolled) && Untouched(s.durable, enrolled)
    && forall u, d :: Conserved(s, enrolled, u, d, digestOf)
  }

  lemma StepKeepsGate(s: State, step: Step, digestOf: CodeDigest)
    requires Gated(s) && Enabled(s, step)
    ensures Gated(Next(s, step, digestOf))
  {
  }

  lemma StepKeepsCalls(s: State, step: Step, digestOf: CodeDigest)
    requires CallsTraced(s) && Enabled(s, step)
    ensures CallsTraced(Next(s, step, digestOf)) && s.tried <= Next(s, step, digestOf).tried
  {
  }

  lemma RenameIsTried(s: State, t: nat, digestOf: CodeDigest)
    requires t < |s.threads| && s.threads[t].Writing? && CallsTraced(s) && HolderCurrent(s, s.threads[t], digestOf)
    ensures Tried(s, s.threads[t].user, s.threads[t].digest, digestOf)
  {
    assert (s.threads[t].user, s.threads[t].typed) in s.tried;
  }

  lemma StepKeepsRenames(s: State, step: Step, digestOf: CodeDigest)
    requires CallsTraced(s) && RenamesTraced(s, digestOf) && HoldersCurrent(s, digestOf) && Enabled(s, step)
    ensures RenamesTraced(Next(s, step, digestOf), digestOf)
  {
    var after := Next(s, step, digestOf);
    StepKeepsCalls(s, step, digestOf);
    if step.Rename? {
      RenameIsTried(s, step.t, digestOf);
    }
    forall u, d | (u, d) in after.renamed
      ensures Tried(after, u, d, digestOf)
    {
      assert Tried(s, u, d, digestOf);
    }
  }

  /** Replacing the file takes exactly the one code out. */
  lemma RenameTakesOne(s: State, t: nat, u: string, d: Digest, digestOf: CodeDigest)
    requires t < |s.threads| && s.threads[t].Writing? && HolderCurrent(s, s.threads[t], digestOf)
    ensures var after := Next(s, Rename(t), digestOf);
            Count(after.visible, u, d) + (if Using(s.threads[t], u, d) then 1 else 0) == Count(s.visible, u, d)
  {
    var thread := s.threads[t];
    WithoutRemovesOne(s.visible[thread.user].digests, thread.digest);
  }

  /** A successful answer counts for the code it used. */
  lemma AnswerCounts(s: State, t: nat, u: string, d: Digest, digestOf: CodeDigest)
    requires t < |s.threads| && s.threads[t].Renamed? && HolderCurrent(s, s.threads[t], digestOf)
    ensures Uses(Next(s, SyncSucceeds(t), digestOf).answers, u, d, digestOf)
         == Uses(s.answers, u, d, digestOf) + if Using(s.threads[t], u, d) then 1 else 0
  {
    var after := Next(s, SyncSucceeds(t), digestOf);
    assert after.answers[..|s.answers|] == s.answers;
  }

  lemma StepConserves(s: State, step: Step, enrolled: Files, u: string, d: Digest, digestOf: CodeDigest)
    requires Enabled(s, step) && HoldersCurrent(s, digestOf) && Conserved(s, enrolled, u, d, digestOf)
    ensures Conserved(Next(s, step, digestOf), enrolled, u, d, digestOf)
  {
    match step {
      case Rename(t) =>
        RenameTakesOne(s, t, u, d, digestOf);
      case SyncSucceeds(t) =>
        assert HolderCurrent(s, s.threads[t], digestOf);
        AnswerCounts(s, t, u, d, digestOf);
      case Crash(left) =>
        assert Count(s.visible, u, d) <= Count(left, u, d) <= Count(s.durable, u, d);
      case _ =>
    }
  }

  lemma StepKeepsFiles(s: State, step: Step, enrolled: Files, digestOf: CodeDigest)
    requires Enabled(s, step) && HoldersCurrent(s, digestOf)
    requires Untouched(s.visible, enrolled) && Untouched(s.durable, enrolled)
    ensures Untouched(Next(s, step, digestOf).visible, enrolled) && Untouched(Next(s, step, digestOf).durable, enrolled)
  {
    if step.Rename? {
      assert HolderCurrent(s, s.threads[step.t], digestOf);
    }
  }

  /** Only the holder reads and replaces files, so its plan stays current. */
  lemma StepKeepsHolders(s: State, step: Step, enrolled: Files, i: nat, digestOf: CodeDigest)
    requires Enabled(s, step) && Gated(s) && HoldersCurrent(s, digestOf) && Untouched(s.visible, enrolled)
    requires forall u, d :: Conserved(s, enrolled, u, d, digestOf)
    requires i < |s.threads|
    ensures var after := Next(s, step, digestOf);
            i < |after.threads| && HolderCurrent(after, after.threads[i], digestOf)
  {
    assert HolderCurrent(s, s.threads[i], digestOf);
    match step {
      case Rename(t) =>
        if i == t {
          var thread := s.threads[t];
          RenameTakesOne(s, t, thread.user, thread.digest, digestOf);
          assert Conserved(s, enrolled, thread.user, thread.digest, digestOf);
        } else {
          assert s.gate == Some(t) && !Critical(s.threads[i]);
        }
      case SyncSucceeds(t) =>
        if i != t {
          assert s.gate == Some(t) && !Critical(s.threads[i]);
        }
      case _ =>
    }
  }

  lemma StepKeepsAllHolders(s: State, step: Step, enrolled: Files, digestOf: CodeDigest)
    requires Enabled(s, step) && Gated(s) && HoldersCurrent(s, digestOf) && Untouched(s.visible, enrolled)
    requires forall u, d :: Conserved(s, enrolled, u, d, digestOf)
    ensures HoldersCurrent(Next(s, step, digestOf), digestOf)
  {
    var after := Next(s, step, digestOf);
    forall i | 0 <= i < |after.threads|
      ensures HolderCurrent(after, after.threads[i], digestOf)
    {
      StepKeepsHolders(s, step, enrolled, i, digestOf);
    }
  }

  lemma StepKeepsInv(s: State, step: Step, enrolled: Files, digestOf: CodeDigest)
    requires Inv(s, enrolled, digestOf) && Enabled(s, step)
    ensures Inv(Next(s, step, digestOf), enrolled, digestOf)
  {
    var after := Next(s, step, digestOf);
    StepKeepsGate(s, step, digestOf);
    StepKeepsCalls(s, step, digestOf);
    StepKeepsRenames(s, step, digestOf);
    StepKeepsFiles(s, step, enrolled, digestOf);
    StepKeepsAllHolders(s, step, enrolled, digestOf);
    forall u, d
      ensures Conserved(after, enrolled, u, d, digestOf)
    {
      StepConserves(s, step, enrolled, u, d, digestOf);
    }
  }

  /** The invariant holds in every state of every run. */
  lemma {:induction false} RunKeepsInv(states: seq<State>, steps: seq<Step>, enrolled: Files, digestOf: CodeDigest)
    requires Run(states, steps, digestOf) && Fresh(states[0], enrolled)
    ensures Inv(states[|steps|], enrolled, digestOf)
    decreases |steps|
  {
    if steps != [] {
      var n := |steps| - 1;
      RunKeepsInv(states[..n + 1], steps[..n], enrolled, digestOf);
      StepKeepsInv(states[n], steps[n], enrolled, digestOf);
    }
  }

  // ----- One call on its own -----

  /** The steps of one call that meets no other and whose write, if it comes to one, ends as
      `write` says. */
  function SoloSteps(t: nat, u: string, typed: string, uses: bool, write: Write): seq<Step> {
    [Call(t, u, typed), Acquire(t), Read(t)]
    + if !uses then []
      else match write
        case NotRenamed => [WriteFails(t)]
        case NotSynced => [Rename(t), SyncFails(t)]
        case Written => [Rename(t), SyncSucceeds(t)]
  }

  /** Run on its own, a call does what the sequential `verify` does: a text that spells a
      listed code leaves the file as the atomic write does and succeeds exactly when the
      whole write does; any other text leaves everything as it was. */
  lemma SoloCallIsVerify(states: seq<State>, t: nat, u: string, typed: string, write: Write, digestOf: CodeDigest)
    requires states != []
    requires Run(states, SoloSteps(t, u, typed, Decides(states[0].visible, u, typed, digestOf).UseCode?, write), digestOf)
    requires u in states[0].visible ==> states[0].visible[u].username == u
    ensures var first, last := states[0], states[|states| - 1];
            var decided := Decides(first.visible, u, typed, digestOf);
            && last.gate == None
            && (if decided.UseCode? then
                  var credential := first.visible[u];
                  && last.visible == AfterWrite(first.visible, credential.(digests := Without(credential.digests, decided.digest)), write)
                  && last.answers == (if write == Written then first.answers + [(u, typed)] else first.answers)
                else
                  last.visible == first.visible && last.durable == first.durable && last.answers == first.answers)
  {
    var uses := Decides(states[0].visible, u, typed, digestOf).UseCode?;
    var steps := SoloSteps(t, u, typed, uses, write);
    assert states[0 + 1] == Next(states[0], steps[0], digestOf);
    assert states[1 + 1] == Next(states[1], steps[1], digestOf);
    assert states[2 + 1] == Next(states[2], steps[2], digestOf);
    if uses {
      assert states[3 + 1] == Next(states[3], steps[3], digestOf);
      if write != NotRenamed {
        assert states[4 + 1] == Next(states[4], steps[4], digestOf);
      }
    }
  }

  // ----- One-time use -----

  /** Over every interleaving, every write failure and every crash, a code answers
      successfully no more often than it was enrolled. */
  lemma SucceedsAtMostAsEnrolled(states: seq<State>, steps: seq<Step>, enrolled: Files, u: string, d: Digest, digestOf: CodeDigest)
    requires Run(states, steps, digestOf) && Fresh(states[0], enrolled)
    ensures Uses(states[|steps|].answers, u, d, digestOf) <= Count(enrolled, u, d)
  {
    RunKeepsInv(states, steps, enrolled, digestOf);
    assert Conserved(states[|steps|], enrolled, u, d, digestOf);
  }

  /** The listings of a code fall only by replacing the file to use that very code, which
      takes a call whose text spells it. So a code that nobody typed, or whose write never
      got to the rename, is listed as often as enrolled; and no run touches a seed. */
  lemma CodesFallOnlyByTheirOwnUse(states: seq<State>, steps: seq<Step>, enrolled: Files, u: string, d: Digest, digestOf: CodeDigest)
    requires Run(states, steps, digestOf) && Fresh(states[0], enrolled)
    ensures var s := states[|steps|];
            && Count(s.visible, u, d) <= Count(enrolled, u, d) <= Count(s.visible, u, d) + s.renamed[(u, d)]
            && ((u, d) in s.renamed ==> Tried(s, u, d, digestOf))
            && s.visible.Keys == enrolled.Keys
            && (u in enrolled ==> s.visible[u].sealedSeed == enrolled[u].sealedSeed)
  {
    RunKeepsInv(states, steps, enrolled, digestOf);
    assert Conserved(states[|steps|], enrolled, u, d, digestOf);
  }

  /** Over every interleaving, fault and crash, a shown code that no call has taken out of the
      file yet is taken by the next call that reads a spelling of it; that call succeeds
      when its write does. */
  lemma UnusedCodeIsTaken(states: seq<State>, steps: seq<Step>, enrolled: Files, u: string,
                          random: seq<seq<nat>>, digestOf: CodeDigest, k: nat, typed: string)
    requires Run(states, steps, digestOf) && Fresh(states[0], enrolled) && k < |random|
    requires forall r :: r in random ==> |r| == 16 && Bytes(r)
    requires u in enrolled && DigestsFor(u, Codes(random), digestOf) == Some(enrolled[u].digests)
    requires Spells(typed, Hex(random[k]))
    requires states[|steps|].renamed[(u, digestOf(u, Hex(random[k])))] == 0
    ensures Decides(states[|steps|].visible, u, typed, digestOf) == UseCode(digestOf(u, Hex(random[k])))
  {
    var s, d := states[|steps|], digestOf(u, Hex(random[k]));
    RunKeepsInv(states, steps, enrolled, digestOf);
    assert Conserved(s, enrolled, u, d, digestOf);
    ShownCodesAreStored(u, random, digestOf);
    assert enrolled[u].digests[k] == d;
    EverySpellingUsesTheCode(s.visible[u], random[k], typed, false, digestOf);
  }

  /** Codes printed from different random bytes are each enrolled once. */
  lemma {:induction false} DistinctCodesListedOnce(u: string, random: seq<seq<nat>>, digestOf: CodeDigest, digests: seq<Digest>, d: Digest)
    requires Injective(digestOf) && |digests| == |random|
    requires forall k :: 0 <= k < |random| ==> |random[k]| == 16 && Bytes(random[k])
    requires forall k :: 0 <= k < |random| ==> digests[k] == digestOf(u, Hex(random[k]))
    requires forall j, k :: 0 <= j < k < |random| ==> random[j] != random[k]
    ensures multiset(digests)[d] <= 1
    decreases |random|
  {
    if random != [] {
      var n := |random| - 1;
      DistinctCodesListedOnce(u, random[..n], digestOf, digests[..n], d);
      assert digests == digests[..n] + [digests[n]];
      if d == digests[n] {
        forall k | 0 <= k < n
          ensures digests[..n][k] != d
        {
          if digests[k] == d {
            HexInjective(random[k], random[n]);
          }
        }
        assert d !in digests[..n];
      }
    }
  }

  /** Any two answers that accepted a code count twice. */
  lemma {:induction false} TwoAnswersCount(answers: seq<(string, string)>, i: nat, j: nat, u: string, d: Digest, digestOf: CodeDigest)
    requires i < j < |answers|
    requires answers[i].0 == answers[j].0 == u
    requires CodeTyped(u, answers[i].1, digestOf) == CodeTyped(u, answers[j].1, digestOf) == Some(d)
    ensures Uses(answers, u, d, digestOf) >= 2
    decreases |answers|
  {
    var n := |answers| - 1;
    if j < n {
      TwoAnswersCount(answers[..n], i, j, u, d, digestOf);
    } else {
      OneAnswerCounts(answers[..n], i, u, d, digestOf);
    }
  }

  lemma {:induction false} OneAnswerCounts(answers: seq<(string, string)>, i: nat, u: string, d: Digest, digestOf: CodeDigest)
    requires i < |answers| && answers[i].0 == u && CodeTyped(u, answers[i].1, digestOf) == Some(d)
    ensures Uses(answers, u, d, digestOf) >= 1
    decreases |answers|
  {
    var n := |answers| - 1;
    if i < n {
      OneAnswerCounts(answers[..n], i, u, d, digestOf);
    }
  }

  lemma SpellingTypesTheCode(u: string, bytes: seq<nat>, typed: string, digestOf: CodeDigest)
    requires |bytes| == 16 && Bytes(bytes) && Spells(typed, Hex(bytes))
    ensures CodeTyped(u, typed, digestOf) == Some(digestOf(u, Hex(bytes)))
  {
    PrintedCodeReadsBack(bytes, typed);
    if TotpShape(typed) {
      SpellingIsLong(typed, Hex(bytes));
    }
  }

  /** Every recovery code shown at enrolment, typed in any spelling, succeeds at most once over
      all interleavings, write failures and crashes, provided the random codes differ. */
  lemma ShownCodeSucceedsAtMostOnce(states: seq<State>, steps: seq<Step>, enrolled: Files, u: string,
                                    random: seq<seq<nat>>, digestOf: CodeDigest, k: nat, i: nat, j: nat)
    requires Run(states, steps, digestOf) && Fresh(states[0], enrolled)
    requires Injective(digestOf) && k < |random|
    requires forall r :: r in random ==> |r| == 16 && Bytes(r)
    requires forall a, b :: 0 <= a < b < |random| ==> random[a] != random[b]
    requires u in enrolled && DigestsFor(u, Codes(random), digestOf) == Some(enrolled[u].digests)
    requires i < |states[|steps|].answers| && j < |states[|steps|].answers|
    ensures var answers := states[|steps|].answers;
            && answers[i].0 == answers[j].0 == u
            && Spells(answers[i].1, Hex(random[k])) && Spells(answers[j].1, Hex(random[k]))
            ==> i == j
  {
    var d, answers := digestOf(u, Hex(random[k])), states[|steps|].answers;
    ShownCodesAreStored(u, random, digestOf);
    DistinctCodesListedOnce(u, random, digestOf, enrolled[u].digests, d);
    SucceedsAtMostAsEnrolled(states, steps, enrolled, u, d, digestOf);
    if answers[i].0 == answers[j].0 == u && Spells(answers[i].1, Hex(random[k])) && Spells(answers[j].1, Hex(random[k])) {
      SpellingTypesTheCode(u, random[k], answers[i].1, digestOf);
      SpellingTypesTheCode(u, random[k], answers[j].1, digestOf);
      if i < j {
        TwoAnswersCount(answers, i, j, u, d, digestOf);
      } else if j < i {
        TwoAnswersCount(answers, j, i, u, d, digestOf);
      }
    }
  }
}
