/**
 * One session's rows as the server holds them: counters bumped in place, rows appended, a batch
 * committed whole or rolled back. Every method is proved against the value form in `TraceStore`.
 */
module TraceSessions {
  import opened Prelude
  import opened TraceTypes
  import opened FeatureExtraction
  import opened Monitor
  import opened TraceStore

  /** Ids already in the log, looked up among the candidates of a batch only. */
  lemma {:induction false} CandidatesSuffice(known: set<string>, candidates: set<string>, items: seq<Item>)
    requires IdSet(items) <= candidates
    ensures Fresh(known * candidates, items) == Fresh(known, items)
    ensures Duplicates(known * candidates, items) == Duplicates(known, items)
  {
    if items != [] {
      CandidatesSuffice(known, candidates, items[..|items| - 1]);
    }
  }

  class TraceSession {
    var startedAt: int
    var finished: bool
    var lastCodeVersion: nat
    var lastEventSeq: nat
    var events: seq<Event>
    var snapshots: seq<Snapshot>

    function View(): Store
      reads this
    {
      Store(startedAt, finished, lastCodeVersion, lastEventSeq, events, snapshots)
    }

    /** A new session with its SESSION_START row and the problem template as version 1. */
    constructor (differ: Differ, template: string, at: int)
      ensures View() == OpenSession(differ, template, at)
    {
      startedAt, finished, lastCodeVersion, lastEventSeq := at, false, 0, 0;
      events, snapshots := [], [];
      new;
      var _ := Append(SessionStart, Server, NoPayload, None, None, at);
      var _, _ := AddSnapshot(differ, template, at);
    }

    /** The next code version, taken and stored in one statement. */
    method AllocateCodeVersion() returns (version: nat)
      modifies this`lastCodeVersion
      ensures version == lastCodeVersion == old(lastCodeVersion) + 1
    {
      lastCodeVersion := lastCodeVersion + 1;
      version := lastCodeVersion;
    }

    /** Reserve `n` row numbers at once: the `n` numbers after the counter, in order. */
    method AllocateEventSeqs(n: int) returns (seqs: seq<nat>)
      modifies this`lastEventSeq
      ensures lastEventSeq == old(lastEventSeq) + Max(n, 0)
      ensures |seqs| == Max(n, 0)
      ensures forall i :: 0 <= i < |seqs| ==> seqs[i] == old(lastEventSeq) + 1 + i
    {
      if n <= 0 {
        return [];
      }
      lastEventSeq := lastEventSeq + n;
      var first := lastEventSeq - n + 1;
      seqs := seq(n, i requires 0 <= i < n => first + i);
    }

    method Append(kind: EventType, source: EventSource, payload: Payload, codeVersion: Option<nat>,
                  clientId: Option<string>, at: int)
      returns (e: Event)
      modifies this`lastEventSeq, this`events
      ensures View() == AppendEvent(old(View()), kind, source, payload, codeVersion, clientId, at)
      ensures events == old(events) + [e]
    {
      var seqs := AllocateEventSeqs(1);
      e := Event(seqs[0], kind, source, codeVersion, payload, at, clientId);
      events := events + [e];
    }

    method AddSnapshot(differ: Differ, code: string, at: int) returns (s: Snapshot, created: bool)
      modifies this`lastCodeVersion, this`snapshots
      ensures (View(), s, created) == CreateSnapshot(differ, old(View()), code, at)
    {
      var prev := LatestSnapshot(View());
      if prev.Some? && prev.value.code == code {
        return prev.value, false;
      }
      var version := AllocateCodeVersion();
      var columns := differ(if prev.Some? then Some(prev.value.code) else None, code);
      s := Snapshot(version, code, at, if prev.Some? then Some(prev.value.version) else None, columns,
                    if prev.Some? then SecondsBetween(prev.value.createdAt, at) else 0);
      snapshots := snapshots + [s];
      created := true;
    }

    /** Split a batch into what is new and what the log or the batch itself already has. */
    method Deduplicate(incoming: seq<Item>) returns (kept: seq<Item>, duplicates: seq<string>)
      ensures kept == Fresh(KnownIds(events), incoming)
      ensures duplicates == Duplicates(KnownIds(events), incoming)
    {
      var known := KnownIds(events) * IdSet(incoming);
      var seen := {};
      kept, duplicates := [], [];
      for i := 0 to |incoming|
        invariant kept == Fresh(known, incoming[..i])
        invariant duplicates == Duplicates(known, incoming[..i])
        invariant seen + known == IdSet(incoming[..i]) + known
      {
        var id := incoming[i].clientId;
        assert incoming[..i + 1][..i] == incoming[..i];
        assert id.Some? ==> (id.value in known || id.value in seen
                             <==> IsDuplicate(known, incoming[..i], incoming[i])) by {
          assert forall x :: x in seen + known <==> x in IdSet(incoming[..i]) + known;
        }
        if id.Some? && (id.value in known || id.value in seen) {
          duplicates := duplicates + [id.value];
        } else {
          if id.Some? {
            seen := seen + {id.value};
          }
          kept := kept + [incoming[i]];
        }
      }
      assert incoming[..|incoming|] == incoming;
      CandidatesSuffice(KnownIds(events), IdSet(incoming), incoming);
    }

    method IngestOne(differ: Differ, loaded: nat, item: Item, now: int) returns (r: Result<Event, TraceError>)
      modifies this`lastCodeVersion, this`snapshots, this`lastEventSeq, this`events
      ensures var spec := IngestItem(differ, old(View()), loaded, item, now);
              match r
              case Ok(e) => spec == Ok(View()) && events == old(events) + [e]
              case Err(error) => spec == Err(error)
    {
      if item.kind !in ALL_CLIENT_TYPES {
        return Err(ServerOnlyEvent);
      }
      var e: Event;
      if item.kind == CodeSnapshot {
        if item.code.None? {
          return Err(MissingSnapshotCode);
        }
        var s, created := AddSnapshot(differ, item.code.value, now);
        e := Append(CodeSnapshot, Client, EditPayload(s.columns.primaryRegion, s.columns.changedLines, !created),
                    Some(s.version), item.clientId, now);
      } else {
        e := Append(item.kind, Client, ClientPayload(item.correct), VersionOrNone(loaded), item.clientId, now);
      }
      r := Ok(e);
    }

    /** One batch, one transaction: all fresh items are stored, or the rows are as they were. */
    method IngestEvents(differ: Differ, incoming: seq<Item>, now: int)
      returns (r: Result<(seq<Event>, seq<string>), TraceError>)
      modifies this
      ensures var spec := Ingest(differ, old(View()), incoming, now);
              match r
              case Ok((accepted, duplicates)) =>
                && spec == Ok(View())
                && events == old(events) + accepted
                && duplicates == Duplicates(KnownIds(old(events)), incoming)
              case Err(error) => spec == Err(error) && View() == old(View())
    {
      var kept, duplicates := Deduplicate(incoming);
      var before := View();
      var accepted: seq<Event> := [];
      for i := 0 to |kept|
        invariant IngestAll(differ, before, before.lastCodeVersion, kept[..i], now) == Ok(View())
        invariant events == before.events + accepted
      {
        assert kept[..i + 1][..i] == kept[..i];
        var one := IngestOne(differ, before.lastCodeVersion, kept[i], now);
        if one.Err? {
          StopsAtError(differ, before, before.lastCodeVersion, kept, i + 1, now);
          Restore(before);
          return Err(one.error);
        }
        accepted := accepted + [one.value];
      }
      assert kept[..|kept|] == kept;
      r := Ok((accepted, duplicates));
    }

    /** Rollback: the rows and counters as they were at the last commit. */
    method Restore(committed: Store)
      modifies this
      ensures View() == committed
    {
      startedAt, finished := committed.startedAt, committed.finished;
      lastCodeVersion, lastEventSeq := committed.lastCodeVersion, committed.lastEventSeq;
      events, snapshots := committed.events, committed.snapshots;
    }

    method RecordJudgeResult(v: Verdict, codeVersion: Option<nat>, source: EventSource, at: int)
      returns (r: Result<Event, TraceError>)
      modifies this`lastEventSeq, this`events
      ensures var spec := RecordResult(old(View()), v, codeVersion, source, at);
              if r.Ok? then spec == Ok(View()) else spec == Err(r.error) && View() == old(View())
    {
      var version := codeVersion;
      if codeVersion.None? {
        version := VersionOrNone(lastCodeVersion);
      } else if codeVersion.value > lastCodeVersion {
        return Err(InvalidCodeVersion);
      }
      var e := Append(TestResult, source, ResultPayload(v.mode, Some(v.status), v.passed, v.total), version, None, at);
      r := Ok(e);
    }

    /** The pure verdict on the rows as they are. */
    method Assess(cfg: MonitorConfig, now: int) returns (state: ProcessState)
      ensures state == Evaluate(cfg, startedAt, events, snapshots, now)
    {
      var f := ExtractFeatures(cfg, startedAt, events, snapshots, now);
      state := Judge(f, events, now, cfg);
    }

    method AssessAndRecord(cfg: MonitorConfig, now: int) returns (state: ProcessState)
      modifies this`lastEventSeq, this`events
      ensures state == MonitorOf(cfg)(old(startedAt), old(events), old(snapshots), now)
      ensures View() == EvaluateAndRecord(MonitorOf(cfg), old(View()), now)
    {
      state := Assess(cfg, now);
      if state.trigger.Some? {
        var _ := Append(AgentTrigger, Server,
                        TriggerPayload(state.trigger.value, state.status, FeaturesToDict(state.features)),
                        VersionOrNone(lastCodeVersion), None, now);
      }
    }

    /** Which snapshot a run grades; code sent along is saved first. */
    method ChooseSnapshot(differ: Differ, grading: Grading, at: int) returns (r: Result<Snapshot, TraceError>)
      modifies this`lastCodeVersion, this`snapshots
      ensures var spec := Grade(differ, old(View()), grading, at);
              if r.Ok? then spec == Ok((View(), r.value)) else spec == Err(r.error) && View() == old(View())
    {
      match grading
      case GradeCode(code) =>
        var s, _ := AddSnapshot(differ, code, at);
        r := Ok(s);
      case GradeVersion(version) =>
        if version > lastCodeVersion {
          return Err(InvalidCodeVersion);
        }
        var found := SnapshotAt(View(), version);
        r := if found.None? then Err(SnapshotNotFound) else Ok(found.value);
      case GradeLatest =>
        var found := LatestSnapshot(View());
        r := if found.None? then Err(SnapshotNotFound) else Ok(found.value);
    }

    /** A run or submit: choose the snapshot, record the verdict on it, then evaluate. */
    method Run(cfg: MonitorConfig, differ: Differ, grading: Grading, verdict: Option<Verdict>, at: int)
      modifies this
      ensures View() == Execute(MonitorOf(cfg), differ, old(View()), grading, verdict, at)
    {
      var chosen := ChooseSnapshot(differ, grading, at);
      if chosen.Err? || verdict.None? {
        return;
      }
      var recorded := RecordJudgeResult(verdict.value, Some(chosen.value.version), Server, at);
      if recorded.Ok? {
        var _ := AssessAndRecord(cfg, at);
      }
    }

    method RecordIntervention(at: int)
      modifies this`lastEventSeq, this`events
      ensures View() == Intervene(old(View()), at)
    {
      var _ := Append(AgentIntervention, Server, NoPayload, None, None, at);
    }

    method Close(at: int)
      modifies this
      ensures View() == Finish(old(View()), at)
    {
      if finished {
        return;
      }
      finished := true;
      var _ := Append(SessionEnd, Server, NoPayload, VersionOrNone(lastCodeVersion), None, at);
    }
  }

  /** The first item that cannot be stored decides the whole batch. */
  lemma {:induction false} StopsAtError(differ: Differ, st: Store, loaded: nat, items: seq<Item>, n: nat, now: int)
    requires n <= |items| && IngestAll(differ, st, loaded, items[..n], now).Err?
    ensures IngestAll(differ, st, loaded, items, now) == IngestAll(differ, st, loaded, items[..n], now)
    decreases |items|
  {
    if n == |items| {
      assert items[..n] == items;
    } else {
      var init := items[..|items| - 1];
      assert init[..n] == items[..n];
      StopsAtError(differ, st, loaded, init, n, now);
    }
  }
}
