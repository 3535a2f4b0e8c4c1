/** The required mode sequence of a pressure timeline: a greedy search for it, and the
    list of mode transitions the summary reports. */
module ModeTimeline {
  import opened Options

  /** The mode a sample reports, if it reports one. */
  type Mode = Option<string>

  const REQUIRED: seq<Mode> :=
    [Some("NORMAL"), Some("WATCH"), Some("LOCAL_GUARD"), Some("RECOVERING"), Some("NORMAL")]

  /** The first position at or after `start` that carries `mode`. */
  function IndexFrom(modes: seq<Mode>, mode: Mode, start: nat): (r: Option<nat>)
    ensures r.Some? ==> start <= r.value < |modes| && modes[r.value] == mode
    ensures forall k :: start <= k < |modes| && (r.Some? ==> k < r.value) ==> modes[k] != mode
    decreases |modes| - start
  {
    if start >= |modes| then None
    else if modes[start] == mode then Some(start)
    else IndexFrom(modes, mode, start + 1)
  }

  /** Strictly increasing positions from `start` on that carry `pattern`. */
  predicate Embeds(modes: seq<Mode>, pattern: seq<Mode>, positions: seq<nat>, start: nat) {
    if pattern == [] then positions == []
    else
      && positions != []
      && start <= positions[0] < |modes|
      && modes[positions[0]] == pattern[0]
      && Embeds(modes, pattern[1..], positions[1..], positions[0] + 1)
  }

  /** Takes the first match for each mode in turn. */
  function Greedy(modes: seq<Mode>, pattern: seq<Mode>, start: nat): Option<seq<nat>> {
    if pattern == [] then Some([])
    else
      var i := IndexFrom(modes, pattern[0], start);
      if i.None? then None
      else
        var rest := Greedy(modes, pattern[1..], i.value + 1);
        if rest.None? then None else Some([i.value] + rest.value)
  }

  /** What the greedy search finds carries the pattern. */
  lemma {:induction false} GreedySound(modes: seq<Mode>, pattern: seq<Mode>, start: nat)
    requires Greedy(modes, pattern, start).Some?
    ensures Embeds(modes, pattern, Greedy(modes, pattern, start).value, start)
    decreases pattern
  {
    if pattern != [] {
      GreedySound(modes, pattern[1..], IndexFrom(modes, pattern[0], start).value + 1);
    }
  }

  /** If any positions carry the pattern the greedy search succeeds, with positions no
      later than those. */
  lemma {:induction false} GreedyEarliest(modes: seq<Mode>, pattern: seq<Mode>, positions: seq<nat>, from: nat, start: nat)
    requires start <= from && Embeds(modes, pattern, positions, from)
    ensures Greedy(modes, pattern, start).Some?
    ensures var found := Greedy(modes, pattern, start).value;
            |found| == |positions| && forall k :: 0 <= k < |found| ==> found[k] <= positions[k]
    decreases pattern
  {
    if pattern != [] {
      var i := IndexFrom(modes, pattern[0], start).value;
      GreedyEarliest(modes, pattern[1..], positions[1..], positions[0] + 1, i + 1);
    }
  }

  lemma {:induction false} EmbedsIncreasing(modes: seq<Mode>, pattern: seq<Mode>, positions: seq<nat>, start: nat)
    requires Embeds(modes, pattern, positions, start)
    ensures |positions| == |pattern|
    ensures forall i :: 0 <= i < |positions| ==> start <= positions[i] < |modes| && modes[positions[i]] == pattern[i]
    ensures forall i, j :: 0 <= i < j < |positions| ==> positions[i] < positions[j]
    decreases pattern
  {
    if pattern != [] {
      EmbedsIncreasing(modes, pattern[1..], positions[1..], positions[0] + 1);
    }
  }

  // ----- Subsequences and collapsed transitions -----

  predicate Subsequence(p: seq<Mode>, m: seq<Mode>) {
    || p == []
    || (m != [] && ((p[0] == m[0] && Subsequence(p[1..], m[1..])) || Subsequence(p, m[1..])))
  }

  predicate NoEqualNeighbours(s: seq<Mode>) {
    forall k :: 0 <= k < |s| - 1 ==> s[k] != s[k + 1]
  }

  /** Drops every mode equal to the one after it. */
  function Collapse(m: seq<Mode>): seq<Mode> {
    if |m| <= 1 then m
    else if m[0] == m[1] then Collapse(m[1..])
    else [m[0]] + Collapse(m[1..])
  }

  lemma {:induction false} CollapseShape(m: seq<Mode>)
    ensures NoEqualNeighbours(Collapse(m))
    ensures m != [] ==> Collapse(m) != [] && Collapse(m)[0] == m[0]
  {
    if |m| > 1 {
      CollapseShape(m[1..]);
    }
  }

  /** Appending a mode to the timeline appends it to the transitions unless it repeats. */
  lemma {:induction false} CollapseAppend(m: seq<Mode>, x: Mode)
    ensures m != [] ==> Collapse(m) != [] && Collapse(m)[|Collapse(m)| - 1] == m[|m| - 1]
    ensures Collapse(m + [x]) == if m != [] && m[|m| - 1] == x then Collapse(m) else Collapse(m) + [x]
  {
    if m == [] {
      assert m + [x] == [x];
    } else if |m| == 1 {
      assert (m + [x])[1..] == [x];
      assert Collapse([x]) == [x];
    } else {
      CollapseAppend(m[1..], x);
      assert (m + [x])[1..] == m[1..] + [x];
      if m[0] != m[1] {
        assert [m[0]] + (Collapse(m[1..]) + [x]) == [m[0]] + Collapse(m[1..]) + [x];
      }
    }
  }

  /** Collapsing repeats keeps exactly the subsequences that have no equal neighbours. */
  lemma {:induction false} CollapseKeepsSubsequences(p: seq<Mode>, m: seq<Mode>)
    requires NoEqualNeighbours(p)
    ensures Subsequence(p, m) <==> Subsequence(p, Collapse(m))
    decreases |m|
  {
    if p != [] && |m| > 1 {
      assert NoEqualNeighbours(p[1..]);
      CollapseKeepsSubsequences(p, m[1..]);
      if m[0] == m[1] {
        if p[0] == m[0] && Subsequence(p[1..], m[1..]) && |p| > 1 {
          assert p[1] != p[0];
        }
      } else {
        CollapseKeepsSubsequences(p[1..], m[1..]);
        assert Collapse(m)[1..] == Collapse(m[1..]);
      }
    }
  }

  lemma {:induction false} EmbedsIsSubsequence(modes: seq<Mode>, pattern: seq<Mode>, positions: seq<nat>, start: nat)
    requires start <= |modes| && Embeds(modes, pattern, positions, start)
    ensures Subsequence(pattern, modes[start..])
    decreases |modes| - start
  {
    if pattern != [] {
      if positions[0] == start {
        EmbedsIsSubsequence(modes, pattern[1..], positions[1..], start + 1);
      } else {
        EmbedsIsSubsequence(modes, pattern, positions, start + 1);
      }
      assert modes[start..][1..] == modes[start + 1..];
    }
  }

  lemma {:induction false} SubsequenceEmbeds(modes: seq<Mode>, pattern: seq<Mode>, start: nat) returns (positions: seq<nat>)
    requires start <= |modes| && Subsequence(pattern, modes[start..])
    ensures Embeds(modes, pattern, positions, start)
    decreases |modes| - start
  {
    positions := [];
    if pattern != [] {
      assert modes[start..][1..] == modes[start + 1..];
      if pattern[0] == modes[start] && Subsequence(pattern[1..], modes[start + 1..]) {
        var rest := SubsequenceEmbeds(modes, pattern[1..], start + 1);
        positions := [start] + rest;
      } else {
        positions := SubsequenceEmbeds(modes, pattern, start + 1);
      }
    }
  }

  // ----- The summary -----

  datatype Summary = Summary(
    transitions: seq<Mode>, localGuardObserved: bool, recoveringObserved: bool, normalRecovered: bool)

  method Transitions(modes: seq<Mode>) returns (transitions: seq<Mode>)
    ensures transitions == Collapse(modes)
  {
    transitions := [];
    var k := 0;
    while k < |modes|
      invariant 0 <= k <= |modes|
      invariant transitions == Collapse(modes[..k])
    {
      CollapseAppend(modes[..k], modes[k]);
      assert modes[..k] + [modes[k]] == modes[..k + 1];
      if transitions == [] || transitions[|transitions| - 1] != modes[k] {
        transitions := transitions + [modes[k]];
      }
      k := k + 1;
    }
    assert modes[..k] == modes;
  }

  /** Some strictly increasing positions carry the pattern. */
  ghost predicate Embeddable(modes: seq<Mode>, pattern: seq<Mode>) {
    exists positions :: Embeds(modes, pattern, positions, 0)
  }

  lemma EmbeddableIffSubsequence(modes: seq<Mode>, pattern: seq<Mode>)
    ensures Embeddable(modes, pattern) <==> Subsequence(pattern, modes)
  {
    assert modes[0..] == modes;
    if positions :| Embeds(modes, pattern, positions, 0) {
      EmbedsIsSubsequence(modes, pattern, positions, 0);
    }
    if Subsequence(pattern, modes) {
      var positions := SubsequenceEmbeds(modes, pattern, 0);
    }
  }

  /** The greedy search decides whether the pattern occurs, and collapsing repeats does
      not change the answer for a pattern without equal neighbours. */
  lemma SearchDecides(modes: seq<Mode>, pattern: seq<Mode>)
    ensures Greedy(modes, pattern, 0).Some? <==> Embeddable(modes, pattern)
    ensures NoEqualNeighbours(pattern) ==> (Embeddable(modes, pattern) <==> Embeddable(Collapse(modes), pattern))
    ensures NoEqualNeighbours(Collapse(modes))
  {
    if positions :| Embeds(modes, pattern, positions, 0) {
      GreedyEarliest(modes, pattern, positions, 0, 0);
    }
    if Greedy(modes, pattern, 0).Some? {
      GreedySound(modes, pattern, 0);
    }
    EmbeddableIffSubsequence(modes, pattern);
    EmbeddableIffSubsequence(Collapse(modes), pattern);
    if NoEqualNeighbours(pattern) {
      CollapseKeepsSubsequences(pattern, modes);
    }
    CollapseShape(modes);
  }

  /** Succeeds exactly when some strictly increasing positions carry the required modes;
      the reported transitions then have no equal neighbours and still contain them. */
  method SummarizeModes(modes: seq<Mode>) returns (r: Option<Summary>)
    ensures r.Some? <==>
              Embeddable(modes, [Some("NORMAL"), Some("WATCH"), Some("LOCAL_GUARD"), Some("RECOVERING"), Some("NORMAL")])
    ensures r.Some? ==> NoEqualNeighbours(r.value.transitions) && Embeddable(r.value.transitions, REQUIRED)
    ensures r.Some? ==> r.value == Summary(Collapse(modes), true, true, true)
  {
    SearchDecides(modes, REQUIRED);
    var found := Greedy(modes, REQUIRED, 0);
    if found.None? {
      return None;
    }
    GreedySound(modes, REQUIRED, 0);
    EmbedsIncreasing(modes, REQUIRED, found.value, 0);
    var at := found.value;
    var transitions := Transitions(modes);
    r := Some(Summary(transitions, at[2] > at[1], at[3] > at[2], at[4] > at[3]));
  }
}
