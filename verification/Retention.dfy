/** Which releases of a service are kept and which one a rollback picks, and how the two compose over
    any run of deploys, retention sweeps and rollbacks. */
module Retention {
  import opened Wrappers
  import opened Text

  const DEFAULT_KEEP_RELEASES: nat := 5

  datatype RollbackError = NoPreviousRelease | AlreadyCurrent | NotRetained

  // ----- the two selections -----

  function Effective(keep: nat): (k: nat)
    ensures k >= 1
  {
    if keep == 0 then DEFAULT_KEEP_RELEASES else keep
  }

  function Without(ids: seq<string>, live: string): seq<string> {
    if ids == [] then []
    else (if ids[0] != live then [ids[0]] else []) + Without(ids[1..], live)
  }

  function Skip(ids: seq<string>, n: nat): seq<string> {
    if n <= |ids| then ids[n..] else []
  }

  function ReleasesToPrune(newestFirst: seq<string>, keep: nat, live: string): seq<string> {
    Without(Skip(newestFirst, Effective(keep)), live)
  }

  function FirstOther(ids: seq<string>, live: string): Option<string> {
    if ids == [] then None else if ids[0] != live then Some(ids[0]) else FirstOther(ids[1..], live)
  }

  function RollbackTarget(newestFirst: seq<string>, live: string, requested: string): Result<string, RollbackError> {
    var id := Trim(requested);
    if id != "" then
      if id == live then Err(AlreadyCurrent)
      else if id in newestFirst then Ok(id) else Err(NotRetained)
    else
      match FirstOther(newestFirst, live)
      case Some(other) => Ok(other)
      case None => Err(NoPreviousRelease)
  }

  // ----- a service's releases -----

  datatype Releases = Releases(newestFirst: seq<string>, live: string)

  /** A deploy adds a release of a new id and makes it live. A sweep removes releases one at a time and
      may stop after any number of them. A rollback makes its target live or fails. */
  datatype Step = Deploy(id: string) | Sweep(keep: nat, removed: nat) | Rollback(requested: string)

  function Minus(ids: seq<string>, gone: seq<string>): seq<string> {
    if ids == [] then []
    else (if ids[0] !in gone then [ids[0]] else []) + Minus(ids[1..], gone)
  }

  predicate Distinct(ids: seq<string>) { forall i, j :: 0 <= i < j < |ids| ==> ids[i] != ids[j] }

  predicate Allowed(s: Releases, step: Step) {
    match step
    case Deploy(id) => id !in s.newestFirst && id != ""
    case Sweep(keep, removed) => removed <= |ReleasesToPrune(s.newestFirst, keep, s.live)|
    case Rollback(_) => true
  }

  function Apply(s: Releases, step: Step): Releases
    requires Allowed(s, step)
  {
    match step
    case Deploy(id) => Releases([id] + s.newestFirst, id)
    case Sweep(keep, removed) =>
      s.(newestFirst := Minus(s.newestFirst, ReleasesToPrune(s.newestFirst, keep, s.live)[..removed]))
    case Rollback(requested) =>
      match RollbackTarget(s.newestFirst, s.live, requested)
      case Ok(id) => s.(live := id)
      case Err(_) => s
  }

  /** Distinct ids, and a live release that is retained once there is any release. */
  predicate Sound(s: Releases) {
    Distinct(s.newestFirst) && (s.live in s.newestFirst || s == Releases([], ""))
  }

  // ----- what the selections mean -----

  lemma {:induction false} WithoutMember(ids: seq<string>, live: string, id: string)
    ensures id in Without(ids, live) <==> id in ids && id != live
  {
    if ids != [] {
      WithoutMember(ids[1..], live, id);
      assert ids == [ids[0]] + ids[1..];
    }
  }

  lemma {:induction false} MinusMember(ids: seq<string>, gone: seq<string>, id: string)
    ensures id in Minus(ids, gone) <==> id in ids && id !in gone
  {
    if ids != [] {
      MinusMember(ids[1..], gone, id);
      assert ids == [ids[0]] + ids[1..];
    }
  }

  lemma {:induction false} MinusDistinct(ids: seq<string>, gone: seq<string>)
    requires Distinct(ids)
    ensures Distinct(Minus(ids, gone))
  {
    if ids != [] {
      MinusDistinct(ids[1..], gone);
      var rest := Minus(ids[1..], gone);
      forall j | 0 <= j < |rest| ensures rest[j] != ids[0] {
        MinusMember(ids[1..], gone, rest[j]);
      }
    }
  }

  lemma {:induction false} FirstOtherIsFirst(ids: seq<string>, live: string)
    ensures match FirstOther(ids, live)
            case None => forall id :: id in ids ==> id == live
            case Some(other) =>
              exists i :: 0 <= i < |ids| && ids[i] == other && other != live
                          && forall j :: 0 <= j < i ==> ids[j] == live
  {
    if ids != [] && ids[0] == live {
      FirstOtherIsFirst(ids[1..], live);
      assert ids == [ids[0]] + ids[1..];
      if FirstOther(ids, live).Some? {
        var i :| 0 <= i < |ids| - 1 && ids[1..][i] == FirstOther(ids, live).value && ids[1..][i] != live
                 && forall j :: 0 <= j < i ==> ids[1..][j] == live;
        assert ids[i + 1] == FirstOther(ids, live).value;
        forall j | 0 <= j < i + 1 ensures ids[j] == live {
          assert j == 0 || ids[1..][j - 1] == ids[j];
        }
      }
    }
  }

  /** An explicit rollback succeeds exactly for the retained releases that are not live; an unqualified
      one picks the newest of those, and fails exactly when there are fewer than two releases. */
  lemma RollbackChooses(s: Releases, requested: string)
    requires Sound(s)
    ensures var r := RollbackTarget(s.newestFirst, s.live, requested);
            if Trim(requested) != "" then
              forall id :: r == Ok(id) <==> id == Trim(requested) && id in s.newestFirst && id != s.live
            else
              && (r.Ok? <==> |s.newestFirst| >= 2)
              && (r.Ok? ==> r.value in s.newestFirst && r.value != s.live
                            && r.value == s.newestFirst[if s.newestFirst[0] == s.live then 1 else 0])
  {
    hide Trim;
    FirstOtherIsFirst(s.newestFirst, s.live);
    var r := RollbackTarget(s.newestFirst, s.live, requested);
    if Trim(requested) == "" {
      var ids := s.newestFirst;
      if |ids| >= 2 {
        assert ids[0] != ids[1];
        assert ids[0] in ids && ids[1] in ids;
      } else if |ids| == 1 {
        assert ids[0] == s.live;
      }
    }
  }

  // ----- a sweep -----

  /** What a finished sweep leaves: the newest releases up to the number kept, and the live one. */
  function Retained(s: Releases, keep: nat): seq<string> {
    var k := if keep == 0 then 5 else keep;
    if |s.newestFirst| <= k then s.newestFirst
    else s.newestFirst[..k] + if s.live in s.newestFirst[k..] then [s.live] else []
  }

  lemma {:induction false} MinusNone(ids: seq<string>, gone: seq<string>)
    requires forall id :: id in ids ==> id !in gone
    ensures Minus(ids, gone) == ids
  {
    if ids != [] {
      assert ids[0] in ids;
      forall id | id in ids[1..] ensures id !in gone {
        assert id in ids;
      }
      MinusNone(ids[1..], gone);
      assert ids == [ids[0]] + ids[1..];
    }
  }

  lemma {:induction false} MinusAppend(a: seq<string>, b: seq<string>, gone: seq<string>)
    ensures Minus(a + b, gone) == Minus(a, gone) + Minus(b, gone)
  {
    if a == [] {
      assert a + b == b;
    } else {
      assert (a + b)[1..] == a[1..] + b;
      MinusAppend(a[1..], b, gone);
    }
  }

  lemma {:induction false} MinusAllButLive(ids: seq<string>, live: string, gone: seq<string>)
    requires Distinct(ids) && forall id :: id in ids ==> (id in gone <==> id != live)
    ensures Minus(ids, gone) == if live in ids then [live] else []
  {
    if ids != [] {
      assert ids == [ids[0]] + ids[1..] && ids[0] in ids;
      forall id | id in ids[1..] ensures id in gone <==> id != live {
        assert id in ids;
      }
      MinusAllButLive(ids[1..], live, gone);
      assert forall id :: id in ids[1..] ==> id != ids[0];
    }
  }

  /** A finished sweep retains exactly these, in order. */
  lemma SweepRetains(s: Releases, keep: nat)
    requires Sound(s)
    ensures Minus(s.newestFirst, ReleasesToPrune(s.newestFirst, keep, s.live)) == Retained(s, keep)
    ensures var k := if keep == 0 then 5 else keep;
            && |Retained(s, keep)| <= k + 1
            && (|s.newestFirst| > k ==> |Retained(s, keep)| == k + if s.live in s.newestFirst[k..] then 1 else 0)
  {
    hide Without;
    var ids, k := s.newestFirst, Effective(keep);
    var gone := ReleasesToPrune(ids, keep, s.live);
    forall id ensures id in gone <==> id in Skip(ids, k) && id != s.live {
      WithoutMember(Skip(ids, k), s.live, id);
    }
    if |ids| <= k {
      MinusNone(ids, gone);
    } else {
      var front, aged := ids[..k], ids[k..];
      assert ids == front + aged;
      assert Distinct(aged);
      forall id | id in front ensures id !in aged {
        var i :| 0 <= i < k && front[i] == id;
        assert ids[i] == id;
      }
      MinusAppend(front, aged, gone);
      MinusNone(front, gone);
      MinusAllButLive(aged, s.live, gone);
    }
  }

  /** After a finished sweep an unqualified rollback still succeeds exactly when there were two releases
      and the sweep kept more than one or the live one was not the newest. */
  lemma RollbackAfterSweep(s: Releases, keep: nat)
    requires Sound(s)
    ensures RollbackTarget(Retained(s, keep), s.live, "").Ok? <==>
            |s.newestFirst| >= 2 && (keep != 1 || s.newestFirst[0] != s.live)
  {
    hide Without, Minus;
    var all := Sweep(keep, |ReleasesToPrune(s.newestFirst, keep, s.live)|);
    SweepRetains(s, keep);
    var gone := ReleasesToPrune(s.newestFirst, keep, s.live);
    assert gone[..|gone|] == gone;
    StepKeepsSound(s, all);
    assert Apply(s, all) == s.(newestFirst := Retained(s, keep));
    assert Trim("") == "";
    RollbackChooses(s.(newestFirst := Retained(s, keep)), "");
    if |s.newestFirst| >= 2 && keep == 1 && s.newestFirst[0] == s.live {
      assert s.live !in s.newestFirst[1..];
    }
  }

  // ----- runs -----

  /** Every step keeps the ids distinct and the live release retained, a sweep that stops half way
      included. */
  lemma StepKeepsSound(s: Releases, step: Step)
    requires Sound(s) && Allowed(s, step)
    ensures Sound(Apply(s, step))
  {
    hide Trim, Without, Minus;
    match step
    case Deploy(id) =>
      assert id in [id] + s.newestFirst;
    case Sweep(keep, removed) =>
      var ids := s.newestFirst;
      var doomed := ReleasesToPrune(ids, keep, s.live);
      MinusDistinct(ids, doomed[..removed]);
      MinusMember(ids, doomed[..removed], s.live);
      WithoutMember(Skip(ids, Effective(keep)), s.live, s.live);
      if ids == [] {
        assert Minus(ids, doomed[..removed]) == [] by { NothingLeft(doomed[..removed]); }
      }
    case Rollback(requested) =>
      RollbackChooses(s, requested);
  }

  lemma NothingLeft(gone: seq<string>)
    ensures Minus([], gone) == []
  {
  }

  predicate IsRun(s: Releases, steps: seq<Step>)
    decreases |steps|
  {
    steps == [] || (Allowed(s, steps[0]) && IsRun(Apply(s, steps[0]), steps[1..]))
  }

  function After(s: Releases, steps: seq<Step>): Releases
    requires IsRun(s, steps)
    decreases |steps|
  {
    if steps == [] then s else After(Apply(s, steps[0]), steps[1..])
  }

  predicate KeepsTwo(steps: seq<Step>) { forall i :: 0 <= i < |steps| && steps[i].Sweep? ==> steps[i].keep != 1 }

  lemma TwoSurvive(s: Releases, step: Step)
    requires Sound(s) && Allowed(s, step) && |s.newestFirst| >= 2 && (step.Sweep? ==> step.keep != 1)
    ensures |Apply(s, step).newestFirst| >= 2
  {
    hide Trim, Without, Minus;
    if step.Sweep? {
      var ids := s.newestFirst;
      var doomed := ReleasesToPrune(ids, step.keep, s.live);
      var kept := Minus(ids, doomed[..step.removed]);
      forall i | 0 <= i < 2 ensures ids[i] in kept {
        MinusMember(ids, doomed[..step.removed], ids[i]);
        WithoutMember(Skip(ids, Effective(step.keep)), s.live, ids[i]);
      }
      assert ids[0] != ids[1];
    }
  }

  /** Over any run the live release stays retained, and once there are two releases an unqualified
      rollback always finds one, as long as no sweep keeps a single release. */
  lemma {:induction false} RunsKeepARollback(s: Releases, steps: seq<Step>)
    requires Sound(s) && IsRun(s, steps)
    ensures Sound(After(s, steps))
    ensures |s.newestFirst| >= 2 && KeepsTwo(steps) ==>
              var end := After(s, steps);
              var r := RollbackTarget(end.newestFirst, end.live, "");
              r.Ok? && r.value in end.newestFirst && r.value != end.live
    decreases |steps|
  {
    hide Sound, Allowed, Apply, RollbackTarget, Trim;
    if steps == [] {
      if |s.newestFirst| >= 2 {
        assert Trim("") == "" by { TrimIsIdentity(""); }
        RollbackChooses(s, "");
      }
    } else {
      StepKeepsSound(s, steps[0]);
      if |s.newestFirst| >= 2 && KeepsTwo(steps) {
        TwoSurvive(s, steps[0]);
      }
      RunsKeepARollback(Apply(s, steps[0]), steps[1..]);
    }
  }

  /** When a sweep may keep a single release, the one to roll back to can be gone. */
  lemma KeepingOneLosesTheRollback(a: string, b: string)
    requires a != b && a != "" && b != ""
    ensures var steps := [Deploy(a), Deploy(b), Sweep(1, 1)];
            && IsRun(Releases([], ""), steps)
            && RollbackTarget(After(Releases([], ""), steps).newestFirst, b, "") == Err(NoPreviousRelease)
  {
    var sweep := Sweep(1, 1);
    var steps := [Deploy(a), Deploy(b), sweep];
    var s0, s1, s2 := Releases([], ""), Releases([a], a), Releases([b, a], b);
    assert steps[1..] == [Deploy(b), sweep] && steps[1..][1..] == [sweep];
    assert [a] + [] == [a] && [b] + [a] == [b, a];
    assert Apply(s0, Deploy(a)) == s1 && Apply(s1, Deploy(b)) == s2;
    SweepOfTwo(a, b);
    AfterOne(s2, sweep);
    assert After(s1, steps[1..]) == After(s2, [sweep]);
    assert After(s0, steps) == After(s1, steps[1..]);
    TrimIsIdentity("");
    assert [b][1..] == [] && FirstOther([b], b) == None;
  }

  lemma SweepOfTwo(a: string, b: string)
    requires a != b
    ensures Allowed(Releases([b, a], b), Sweep(1, 1)) && Apply(Releases([b, a], b), Sweep(1, 1)) == Releases([b], b)
  {
    assert [a][1..] == [] && [b, a][1..] == [a];
    assert Skip([b, a], 1) == [a] && Without([a], b) == [a] && [a][..1] == [a];
    assert Minus([a], [a]) == [] by { NothingLeft([a]); }
    assert b !in [a];
    assert Minus([b, a], [a]) == [b] + Minus([a], [a]);
  }

  lemma AfterOne(s: Releases, step: Step)
    requires Allowed(s, step)
    ensures IsRun(s, [step]) && After(s, [step]) == Apply(s, step)
  {
    hide Allowed, Apply;
    assert [step][1..] == [];
  }
}
