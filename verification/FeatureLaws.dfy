/** Relational laws of the extractor: outages are invisible, recoveries are not progress. */
module FeatureLaws {
  import opened Prelude
  import opened TraceTypes
  import opened FeatureExtraction
  import opened Monitor

  // ------------------------------------------------------------------ erasing results

  predicate IsResultWith(e: Event, statuses: set<JudgeStatus>) {
    e.kind == TestResult && ToObservation(e).Some? && ToObservation(e).value.status in statuses
  }

  /** The log without the result rows of the given statuses; the other rows keep their numbers. */
  function Erase(events: seq<Event>, statuses: set<JudgeStatus>): (kept: seq<Event>)
    ensures |kept| <= |events|
  {
    if events == [] then []
    else
      var last := events[|events| - 1];
      var rest := Erase(events[..|events| - 1], statuses);
      if IsResultWith(last, statuses) then rest else rest + [last]
  }

  const EVERY_STATUS: set<JudgeStatus> := SCORED + ERRORS + SYSTEM

  lemma EveryStatus(s: JudgeStatus)
    ensures s in EVERY_STATUS
  {
  }

  lemma {:induction false} OnlyOnly(results: seq<Observation>, a: set<JudgeStatus>, b: set<JudgeStatus>)
    ensures Only(Only(results, a), b) == Only(results, a * b)
  {
    if results != [] {
      var rest := results[..|results| - 1];
      var last := results[|results| - 1];
      OnlyOnly(rest, a, b);
      if last.status in a {
        assert (Only(rest, a) + [last])[..|Only(rest, a)|] == Only(rest, a);
      }
    }
  }

  lemma {:induction false} ErasedResults(events: seq<Event>, statuses: set<JudgeStatus>)
    ensures Results(Erase(events, statuses)) == Only(Results(events), EVERY_STATUS - statuses)
  {
    if events != [] {
      var rest := events[..|events| - 1];
      var last := events[|events| - 1];
      ErasedResults(rest, statuses);
      if last.kind == TestResult && ToObservation(last).Some? {
        var o := ToObservation(last).value;
        EveryStatus(o.status);
        assert (Results(rest) + [o])[..|Results(rest)|] == Results(rest);
      }
      if !IsResultWith(last, statuses) {
        assert (Erase(rest, statuses) + [last])[..|Erase(rest, statuses)|] == Erase(rest, statuses);
      }
    }
  }

  lemma ErasedStep(events: seq<Event>, statuses: set<JudgeStatus>)
    requires events != [] && !IsResultWith(events[|events| - 1], statuses)
    ensures var rest, kept := Erase(events[..|events| - 1], statuses), Erase(events, statuses);
            kept != [] && kept[|kept| - 1] == events[|events| - 1] && kept[..|kept| - 1] == rest
  {
  }

  lemma {:induction false} ErasureKeepsActivity(events: seq<Event>, statuses: set<JudgeStatus>)
    ensures ActivitySuccessAt(Erase(events, statuses)) == ActivitySuccessAt(events)
  {
    if events != [] {
      ErasureKeepsActivity(events[..|events| - 1], statuses);
      if !IsResultWith(events[|events| - 1], statuses) {
        ErasedStep(events, statuses);
      }
    }
  }

  /** Everything the monitor knows about scores and progress, the stall clock and the edit windows. */
  predicate SameScoreFeatures(f: Features, g: Features) {
    && f.scores == g.scores
    && f.clocks.secondsWithoutProgress == g.clocks.secondsWithoutProgress
  }

  /** A selection that keeps none of the erased statuses is blind to the erasure. */
  lemma ErasureInvisibleTo(events: seq<Event>, erased: set<JudgeStatus>, wanted: set<JudgeStatus>)
    requires erased !! wanted
    ensures Only(Results(Erase(events, erased)), wanted) == Only(Results(events), wanted)
  {
    ErasedResults(events, erased);
    OnlyOnly(Results(events), EVERY_STATUS - erased, wanted);
    assert (EVERY_STATUS - erased) * wanted == wanted by {
      forall s | s in wanted ensures s in EVERY_STATUS {
        EveryStatus(s);
      }
    }
  }

  /**
   * Erasing any results that carry no score leaves every score feature unchanged; if no student
   * error is erased either, the error streak is unchanged too.
   */
  lemma ErasingUnscoredResults(
    cfg: MonitorConfig, startedAt: int, events: seq<Event>, snapshots: seq<Snapshot>, now: int,
    erased: set<JudgeStatus>)
    requires erased !! SCORED
    ensures SameScoreFeatures(Extract(cfg, startedAt, events, snapshots, now),
                              Extract(cfg, startedAt, Erase(events, erased), snapshots, now))
    ensures erased !! ERRORS ==>
              Extract(cfg, startedAt, events, snapshots, now).errors ==
              Extract(cfg, startedAt, Erase(events, erased), snapshots, now).errors
  {
    ErasureInvisibleTo(events, erased, SCORED);
    ErasureKeepsActivity(events, erased);
    if erased !! ERRORS {
      ErasureInvisibleTo(events, erased, ERRORS);
      ErasureInvisibleTo(events, erased, SCORED + ERRORS);
    }
  }

  /** Outage transparency: judge failures change neither the scores nor the error streak. */
  lemma OutageIsTransparent(cfg: MonitorConfig, startedAt: int, events: seq<Event>, snapshots: seq<Snapshot>, now: int)
    ensures var f := Extract(cfg, startedAt, events, snapshots, now);
            var g := Extract(cfg, startedAt, Erase(events, SYSTEM), snapshots, now);
            SameScoreFeatures(f, g) && f.errors == g.errors
  {
    assert SYSTEM !! SCORED && SYSTEM !! ERRORS;
    ErasingUnscoredResults(cfg, startedAt, events, snapshots, now, SYSTEM);
  }

  /** Student errors are not zeros: without them the scores, streaks and clocks are the same. */
  lemma StudentErrorsAreNotScores(
    cfg: MonitorConfig, startedAt: int, events: seq<Event>, snapshots: seq<Snapshot>, now: int)
    ensures SameScoreFeatures(Extract(cfg, startedAt, events, snapshots, now),
                              Extract(cfg, startedAt, Erase(events, ERRORS), snapshots, now))
  {
    ErasingUnscoredResults(cfg, startedAt, events, snapshots, now, ERRORS);
  }

  // ------------------------------------------------------------------ the two record scans

  /**
   * Without a correct activity the stall clock and the edit windows are anchored at the same
   * result, the first one attaining the maximum score.
   */
  lemma RecordScansAgree(scored: seq<Observation>, k: nat)
    requires IsFirstBest(scored, k)
    ensures ProgressAt(scored, None) == Some(scored[k].at)
    ensures ProgressVersion(scored, None, ProgressAt(scored, None)) == scored[k].codeVersion
  {
    FirstBestIs(scored);
    var r := FirstBest(scored).value;
    assert scored[r].passed == scored[k].passed;
    assert r == k;
  }

  /** The stall clock counts from a correct activity, not from the record. */
  predicate ActivityAnchors(scored: seq<Observation>, success: Option<int>) {
    success.Some? && success == ProgressAt(scored, success)
  }

  /**
   * Where the two anchors are, for any activity: the clock starts at the later of record and activity;
   * the windows start at the record's version, but at the newest result's as soon as the activity is
   * not older than the record.
   */
  lemma AnchorsOf(scored: seq<Observation>, k: nat, success: Option<int>)
    requires IsFirstBest(scored, k)
    ensures ActivityAnchors(scored, success) <==> success.Some? && success.value >= scored[k].at
    ensures ProgressAt(scored, success)
         == Some(if success.Some? then Max(success.value, scored[k].at) else scored[k].at)
    ensures ProgressVersion(scored, success, ProgressAt(scored, success))
         == if ActivityAnchors(scored, success) then scored[|scored| - 1].codeVersion else scored[k].codeVersion
  {
    FirstBestIs(scored);
    var r := FirstBest(scored).value;
    assert scored[r].passed == scored[k].passed;
    assert r == k;
  }

  /**
   * A result that does not beat the record (4, 3, 4) never moves the stall clock. It leaves the edit
   * windows where they were if and only if no correct activity is the anchor or it graded the version
   * of the result before it.
   */
  lemma RecoveryIsNotProgress(scored: seq<Observation>, r: Observation, success: Option<int>)
    requires exists i :: 0 <= i < |scored| && scored[i].passed >= r.passed
    ensures ProgressAt(scored + [r], success) == ProgressAt(scored, success)
    ensures ProgressVersion(scored + [r], success, ProgressAt(scored + [r], success))
         == ProgressVersion(scored, success, ProgressAt(scored, success))
       <==> !ActivityAnchors(scored, success) || r.codeVersion == scored[|scored| - 1].codeVersion
  {
    FirstBestIs(scored);
    var k := FirstBest(scored).value;
    assert scored[k].passed >= r.passed;
    assert IsFirstBest(scored + [r], k);
    AnchorsOf(scored, k, success);
    AnchorsOf(scored + [r], k, success);
  }

  /**
   * With an activity as the anchor, a later result on another version moves the windows although nothing
   * was gained.
   */
  lemma LaterResultMovesTheWindow(scored: seq<Observation>, r: Observation, success: int)
    requires exists i :: 0 <= i < |scored| && scored[i].passed >= r.passed
    requires ActivityAnchors(scored, Some(success)) && r.at > success
    requires r.codeVersion != scored[|scored| - 1].codeVersion
    ensures ProgressAt(scored + [r], Some(success)) == Some(success)
    ensures ProgressVersion(scored + [r], Some(success), Some(success)) == r.codeVersion
         != ProgressVersion(scored, Some(success), Some(success))
  {
    RecoveryIsNotProgress(scored, r, Some(success));
  }

  /** A strict improvement moves the windows to the new result, and the clock too unless a later activity holds it. */
  lemma NewRecordMovesBoth(scored: seq<Observation>, r: Observation, success: Option<int>)
    requires forall i :: 0 <= i < |scored| ==> scored[i].passed < r.passed
    ensures ProgressVersion(scored + [r], success, ProgressAt(scored + [r], success)) == r.codeVersion
    ensures ProgressAt(scored + [r], success) == Some(r.at) <==> success.None? || success.value <= r.at
  {
    assert IsFirstBest(scored + [r], |scored|);
    AnchorsOf(scored + [r], |scored|, success);
  }

  // ------------------------------------------------------------------ what the windows mean

  /** Selecting by status keeps exactly the observations of those statuses. */
  lemma {:induction false} OnlyExactly(results: seq<Observation>, wanted: set<JudgeStatus>, r: Observation)
    ensures r in Only(results, wanted) <==> r in results && r.status in wanted
  {
    if results != [] {
      var init, last := results[..|results| - 1], results[|results| - 1];
      OnlyExactly(init, wanted, r);
      assert r in results <==> r in init || r == last;
    }
  }

  /** The improvement flag: among the last three scores one is higher than the score before it. */
  lemma {:induction false} RisingIff(window: seq<Observation>)
    ensures SomewhereRising(window) <==>
            exists i, j :: 0 <= i < j < |window| && j == i + 1 && window[j].passed > window[i].passed
  {
    if |window| >= 2 {
      var init := window[..|window| - 1];
      RisingIff(init);
      if SomewhereRising(init) {
        var i, j :| 0 <= i < j < |init| && j == i + 1 && init[j].passed > init[i].passed;
        assert window[j].passed > window[i].passed;
      } else if window[|window| - 1].passed > window[|window| - 2].passed {
        assert window[|window| - 2 + 1].passed > window[|window| - 2].passed;
      }
      assert forall i :: 0 <= i < |init| ==> init[i] == window[i];
    }
  }

  /** The idle clock starts at the latest activity row. */
  lemma {:induction false} LastActivityIsLatest(events: seq<Event>)
    ensures LastActivityAt(events).None? <==> forall i :: 0 <= i < |events| ==> events[i].kind !in ACTIVITY_TYPES
    ensures LastActivityAt(events).Some? ==>
              && (forall i :: 0 <= i < |events| && events[i].kind in ACTIVITY_TYPES ==>
                  events[i].at <= LastActivityAt(events).value)
              && exists i ::
                   && 0 <= i < |events| && events[i].kind in ACTIVITY_TYPES
                   && events[i].at == LastActivityAt(events).value
  {
    if events != [] {
      var init := events[..|events| - 1];
      LastActivityIsLatest(init);
      assert forall i :: 0 <= i < |init| ==> init[i] == events[i];
      if LastActivityAt(init).Some? {
        var i :| 0 <= i < |init| && init[i].kind in ACTIVITY_TYPES && init[i].at == LastActivityAt(init).value;
        assert events[i].at == LastActivityAt(init).value;
      }
      assert events[|events| - 1].kind in ACTIVITY_TYPES ==> LastActivityAt(events).Some?;
    }
  }

  /** A window of the last `w` results, for a positive setting: the end of the list, in order. */
  lemma WindowIsSuffix<T>(s: seq<T>, w: int)
    requires w > 0
    ensures |SliceFromMinus(s, w)| == Min(w, |s|)
    ensures s[..|s| - |SliceFromMinus(s, w)|] + SliceFromMinus(s, w) == s
  {
    assert s[..|s| - |SliceFromMinus(s, w)|] + SliceFromMinus(s, w) == s;
  }

  ghost predicate Numbered(events: seq<Event>) {
    forall i :: 0 <= i < |events| ==> events[i].seqNo == i + 1
  }

  function CountActivity(events: seq<Event>): nat {
    if events == [] then 0
    else CountActivity(events[..|events| - 1]) + if events[|events| - 1].kind in ACTIVITY_TYPES then 1 else 0
  }

  /** The counters since the last trigger count the rows behind it, and all rows if there was none. */
  lemma {:induction false} CountersCountTheRest(events: seq<Event>, kind: EventType, t: nat)
    requires Numbered(events) && t <= |events|
    ensures CountKindAfter(events, kind, Some(t)) == CountKind(events[t..], kind)
    ensures CountActivityAfter(events, Some(t)) == CountActivity(events[t..])
    decreases |events|
  {
    if t < |events| {
      var init := events[..|events| - 1];
      CountersCountTheRest(init, kind, t);
      assert events[t..][..|events| - 1 - t] == init[t..];
    } else {
      NothingAfterLast(events, kind, t);
    }
  }

  lemma {:induction false} NothingAfterLast(events: seq<Event>, kind: EventType, t: nat)
    requires Numbered(events) && |events| <= t
    ensures CountKindAfter(events, kind, Some(t)) == 0 && CountActivityAfter(events, Some(t)) == 0
  {
    if events != [] {
      NothingAfterLast(events[..|events| - 1], kind, t);
    }
  }

  lemma {:induction false} CountersCountAll(events: seq<Event>, kind: EventType)
    ensures CountKindAfter(events, kind, None) == CountKind(events, kind)
    ensures CountActivityAfter(events, None) == CountActivity(events)
  {
    if events != [] {
      CountersCountAll(events[..|events| - 1], kind);
    }
  }
}
