/**
 * A run in which the edit windows move away from the moment of progress: grade the template, answer an
 * activity correctly, then edit and run. The edit was made after the progress and no window contains it.
 */
module WindowFailure {
  import opened Prelude
  import opened TraceTypes
  import opened FeatureExtraction
  import opened Monitor
  import opened TraceStore
  import opened MonitorRuns
  import opened StreakRequests
  import opened IngestLaws

  /** A correct answer to an activity, as the browser sends it. */
  function Answer(id: string): Item {
    Item(Some(id), ActivityResponse, None, true)
  }

  /** Run the newest code, answer, then run an edit. */
  function AnswerBetweenRuns(id: string, edited: string, v: Verdict, w: Verdict, ran: int, answered: int, edit: int)
    : seq<Step>
  {
    [Execution(GradeLatest, Some(v), ran), Batch([Answer(id)], answered), Execution(GradeCode(edited), Some(w), edit)]
  }

  /** What the windows read of a store: scores, answers, snapshots. */
  ghost predicate Shows(st: Store, scored: seq<Observation>, success: Option<int>, snapshots: seq<Snapshot>) {
    Valid(st) && Scored(st.events) == scored && ActivitySuccessAt(st.events) == success && st.snapshots == snapshots
  }

  /** A row that is no result shows only if it is a correct answer. */
  lemma RowOnTop(events: seq<Event>, e: Event)
    requires e.kind != TestResult
    ensures Scored(events + [e]) == Scored(events)
    ensures ActivitySuccessAt(events + [e])
         == if e.kind == ActivityResponse && e.payload == ClientPayload(true) then Some(e.at)
            else ActivitySuccessAt(events)
    ensures KnownIds(events + [e]) == KnownIds(events) + if e.clientId.Some? then {e.clientId.value} else {}
  {
    assert (events + [e])[..|events|] == events;
  }

  lemma TriggerShowsNothing(st: Store, state: ProcessState, now: int)
    requires Valid(st)
    ensures Shows(RecordState(st, state, now), Scored(st.events), ActivitySuccessAt(st.events), st.snapshots)
  {
    RecordStateKeeps(st, state, now);
    if state.trigger.Some? {
      RowOnTop(st.events, RecordState(st, state, now).events[|st.events|]);
    }
  }

  lemma ScoreShows(monitor: Evaluator, st: Store, v: Verdict, k: nat, at: int)
    requires Valid(st) && 1 <= k <= st.lastCodeVersion && v.status in SCORED
    ensures Shows(RecordAndEvaluate(monitor, st, v, k, at),
                  Scored(st.events) + [Seen(st, v, k, at)], ActivitySuccessAt(st.events), st.snapshots)
  {
    var recorded := After(st, v, k, at);
    AfterAppends(st, v, k, at);
    RecordResultKeeps(st, v, k, at);
    assert recorded.events[..|st.events|] == st.events;
    TriggerShowsNothing(recorded, monitor(recorded.startedAt, recorded.events, recorded.snapshots, at), at);
  }

  lemma AnswerRow(differ: Differ, st: Store, id: string, at: int)
    requires id !in KnownIds(st.events)
    ensures Ingest(differ, st, [Answer(id)], at)
         == Ok(AppendEvent(
              st, ActivityResponse, Client, ClientPayload(true), VersionOrNone(st.lastCodeVersion), Some(id), at))
  {
    var items := [Answer(id)];
    assert items[..0] == [];
    assert IdSet([]) == {};
    assert Fresh(KnownIds(st.events), []) == [];
    assert Fresh(KnownIds(st.events), items) == items;
    assert IngestAll(differ, st, st.lastCodeVersion, items[..0], at) == Ok(st);
  }

  lemma AnswerShows(differ: Differ, st: Store, id: string, at: int)
    requires Valid(st) && id !in KnownIds(st.events)
    ensures var r := Ingest(differ, st, [Answer(id)], at);
            r.Ok? && Shows(r.value, Scored(st.events), Some(at), st.snapshots)
  {
    AnswerRow(differ, st, id, at);
    RowOnTop(st.events, Ingest(differ, st, [Answer(id)], at).value.events[|st.events|]);
  }

  /** A new session holds the start row and the template, nothing else. */
  lemma OpenHolds(differ: Differ, template: string, at: int)
    ensures var st := OpenSession(differ, template, at);
            && st.events == [Event(1, SessionStart, Server, None, NoPayload, at, None)] && st.lastCodeVersion == 1
            && |st.snapshots| == 1 && st.snapshots[0].version == 1 && st.snapshots[0].code == template
  {
  }

  lemma OpenShows(differ: Differ, template: string, at: int)
    ensures var st := OpenSession(differ, template, at);
            && Shows(st, [], None, st.snapshots) && KnownIds(st.events) == {} && st.lastCodeVersion == 1
            && |st.snapshots| == 1 && st.snapshots[0].version == 1 && st.snapshots[0].code == template
  {
    OpenValid(differ, template, at);
    OpenHolds(differ, template, at);
    var start := OpenSession(differ, template, at).events[0];
    RowOnTop([], start);
    assert [] + [start] == [start];
  }

  /** The template was graded: one score, on version 1. */
  lemma FirstRun(monitor: Evaluator, differ: Differ, template: string, at: int, v: Verdict, ran: int)
    returns (first: Observation)
    requires v.status in SCORED
    ensures var open := OpenSession(differ, template, at);
            var st := Apply(monitor, differ, open, Execution(GradeLatest, Some(v), ran));
            && Shows(st, [first], None, open.snapshots) && KnownIds(st.events) == {} && st.lastCodeVersion == 1
    ensures first.at == ran && first.codeVersion == 1 && first.passed == v.passed
  {
    var open := OpenSession(differ, template, at);
    OpenShows(differ, template, at);
    ScoreShows(monitor, open, v, 1, ran);
    first := Seen(open, v, 1, ran);
    var step := Execution(GradeLatest, Some(v), ran);
    ServerRowsCarryNoIds(monitor, differ, open, step);
    KnownIdsAreRowIds(open.events);
    KnownIdsAreRowIds(Apply(monitor, differ, open, step).events);
  }

  /** The edit was graded: a second score, on version 2. */
  lemma SecondRun(monitor: Evaluator, differ: Differ, st: Store, edited: string, w: Verdict, at: int)
    returns (second: Observation)
    requires Valid(st) && |st.snapshots| == 1 && st.snapshots[0].code != edited && w.status in SCORED
    ensures var next := Apply(monitor, differ, st, Execution(GradeCode(edited), Some(w), at));
            && |next.snapshots| == 2 && next.snapshots[0] == st.snapshots[0]
            && next.snapshots[1].version == 2 && next.snapshots[1].code == edited && next.snapshots[1].createdAt == at
            && Shows(next, Scored(st.events) + [second], ActivitySuccessAt(st.events), next.snapshots)
    ensures second.at == at && second.codeVersion == 2 && second.passed == w.passed
  {
    var mid := CreateSnapshot(differ, st, edited, at).0;
    SnapshotKeeps(differ, st, edited, at);
    ScoreShows(monitor, mid, w, 2, at);
    second := Seen(mid, w, 2, at);
  }

  lemma Windows(scored: seq<Observation>, success: int)
    requires |scored| in {1, 2} && scored[0].at <= success && scored[0].codeVersion == 1
    requires |scored| == 2 ==> scored[1].passed <= scored[0].passed && scored[1].codeVersion == 2
    ensures ProgressAt(scored, Some(success)) == Some(success)
    ensures ProgressVersion(scored, Some(success), Some(success)) == |scored|
  {
    assert scored[..|scored| - 1] == if |scored| == 2 then [scored[0]] else [];
    assert FirstBest(scored[..0]) == None;
    assert FirstBest([scored[0]]) == Some(0) by {
      assert [scored[0]][..0] == [];
    }
  }

  lemma EditAbove(snapshots: seq<Snapshot>)
    requires |snapshots| == 2 && snapshots[0].version == 1 && snapshots[1].version == 2
    ensures EditsSinceProgress(snapshots, 1) == [snapshots[1]]
    ensures EditsSinceProgress(snapshots, 2) == []
  {
    AboveVersion(snapshots, 1);
    assert snapshots[1..] == [snapshots[1]];
    assert [snapshots[1]][..0] == [];
    assert Above([], 1) == [] && Above([], 2) == [];
  }

  /**
   * For every monitor, any two different codes and any two scores of which the second is no record: the
   * answer is the last progress before and after the second run, and the windows start at version 1
   * before it and at version 2 after it. So the one edit made since the progress is in no window, while
   * windows that start at the newest result up to that moment contain it.
   */
  lemma EditAfterProgressIsNotCounted(
    monitor: Evaluator, differ: Differ, template: string, edited: string, id: string, v: Verdict, w: Verdict,
    at: int, ran: int, answered: int, edit: int)
    requires template != edited && v.status in SCORED && w.status in SCORED && w.passed <= v.passed
    requires ran <= answered < edit
    ensures var steps := AnswerBetweenRuns(id, edited, v, w, ran, answered, edit);
            var before := Session(monitor, differ, template, at, steps[..2]);
            var after := Session(monitor, differ, template, at, steps);
            && AnchorsAre(before, answered, 1) && AnchorsAre(after, answered, 2)
            && |after.snapshots| == 2 && after.snapshots[1].code == edited && after.snapshots[1].createdAt == edit
            && EditsSinceProgress(after.snapshots, 2) == []
            && EditsSinceProgress(after.snapshots, 1) == [after.snapshots[1]]
  {
    var steps := AnswerBetweenRuns(id, edited, v, w, ran, answered, edit);
    var open := OpenSession(differ, template, at);
    OpenShows(differ, template, at);
    ThreeSteps(monitor, differ, open, steps);
    var first := FirstRun(monitor, differ, template, at, v, ran);
    var started := Apply(monitor, differ, open, steps[0]);
    AnswerShows(differ, started, id, answered);
    var before := Apply(monitor, differ, started, steps[1]);
    var second := SecondRun(monitor, differ, before, edited, w, edit);
    var after := Apply(monitor, differ, before, steps[2]);
    Windows([first], answered);
    Windows([first] + [second], answered);
    EditAbove(after.snapshots);
  }

  /** The stall clock starts at `progress` and the edit windows at `version`, as the extractor computes them. */
  ghost predicate AnchorsAre(st: Store, progress: int, version: nat) {
    var scored, success := Scored(st.events), ActivitySuccessAt(st.events);
    ProgressAt(scored, success) == Some(progress) && ProgressVersion(scored, success, Some(progress)) == version
  }

  lemma ThreeSteps(monitor: Evaluator, differ: Differ, st: Store, steps: seq<Step>)
    requires |steps| == 3
    ensures RunSteps(monitor, differ, st, steps[..2])
         == Apply(monitor, differ, Apply(monitor, differ, st, steps[0]), steps[1])
    ensures RunSteps(monitor, differ, st, steps)
         == Apply(monitor, differ, RunSteps(monitor, differ, st, steps[..2]), steps[2])
  {
    assert steps[..2][..1] == steps[..1] && steps[..1][..0] == [];
    assert RunSteps(monitor, differ, st, steps[..1]) == Apply(monitor, differ, st, steps[0]);
  }
}
