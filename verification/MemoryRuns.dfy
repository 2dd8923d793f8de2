/**
  Whole runs over generic memory: any sequence of creations, recalling reads and maintenance jobs at times that
  never decrease.
 */
module MemoryRuns {
  import opened Text
  import opened MemoryModel
  import opened MemoryStore
  import opened MemoryCreation
  import opened Maintenance

  datatype Act = Create(id: string, input: CreateInput) | Read(id: string) | Job(job: JobType)

  datatype Step = Step(act: Act, at: Time)

  /** The steps that write something. Calls that are refused, and keyed creations that find their key, write nothing. */
  ghost predicate Allowed(m: Records, s: Step) {
    match s.act
    case Create(id, input) =>
      var r := BuildRecord(id, s.at, input);
      id !in m && UsableId(id) && ValidRecord(r) && KeyOf(r) !in Keys(m)
    case Read(id) => id in m && ValidRecord(Recall(m[id], s.at))
    case Job(_) => true
  }

  ghost function AfterStep(m: Records, s: Step): Records {
    match s.act
    case Create(id, input) => m[id := BuildRecord(id, s.at, input)]
    case Read(id) => if id in m then m[id := Recall(m[id], s.at)] else m
    case Job(job) => AfterJob(m, job, s.at)
  }

  ghost function After(m: Records, steps: seq<Step>): Records {
    if steps == [] then m else AfterStep(After(m, steps[..|steps| - 1]), steps[|steps| - 1])
  }

  ghost function EndTime(from: Time, steps: seq<Step>): Time {
    if steps == [] then from else steps[|steps| - 1].at
  }

  /** Every step is allowed where it happens, and no step happens before the one before it. */
  ghost predicate IsRun(m: Records, from: Time, steps: seq<Step>) {
    steps == [] ||
    var front, last := steps[..|steps| - 1], steps[|steps| - 1];
    IsRun(m, from, front) && EndTime(from, front) <= last.at && Allowed(After(m, front), last)
  }

  // ----- one step, one record -----

  /** All that can happen to one record in one step. */
  lemma StepEffect(m: Records, s: Step, id: string)
    requires Allowed(m, s)
    ensures var n := AfterStep(m, s);
      && (id in m && id !in n ==>
            || (s.act == Job(ExpiredCleanup) && Removable(Load(m[id]), s.at))
            || (s.act == Job(StaleCompaction) && !Newest(m, id) && !Protected(Load(m[id]))))
      && (id in m && id in n ==>
            || n[id] == m[id]
            || (s.act == Read(id) && n[id] == Recall(m[id], s.at))
            || (s.act == Job(DecayUpdate) && DecayDue(Load(m[id]), s.at) && n[id] == Decay(Load(m[id]), s.at))
            || (s.act == Job(ReplayPreservation) && Replayish(Load(m[id])) && n[id] == Preserve(Load(m[id]), s.at)))
      && (id !in m && id in n ==> s.act.Create? && s.act.id == id && n[id] == BuildRecord(id, s.at, s.act.input))
  {
    hide Load, Recall, Decay, Preserve, BuildRecord, DecayDue, Removable, Newest, Protected, Replayish,
        FullyPreserved, ValidRecord, UsableId, Keys;
  }

  /** The state before step i of a run, and what the run's first steps are. */
  lemma {:induction false} RunPrefix(m: Records, from: Time, steps: seq<Step>, i: nat)
    requires IsRun(m, from, steps) && i <= |steps|
    ensures IsRun(m, from, steps[..i])
    ensures (i < |steps| ==> Allowed(After(m, steps[..i]), steps[i]) && EndTime(from, steps[..i]) <= steps[i].at)
    ensures EndTime(from, steps[..i]) <= EndTime(from, steps)
    decreases |steps| - i
  {
    hide Allowed, After;
    if i == |steps| {
      assert steps[..i] == steps;
    } else {
      RunPrefix(m, from, steps, i + 1);
      assert steps[..i + 1][..i] == steps[..i];
    }
  }

  lemma StepOk(m: Records, s: Step)
    requires StoreOk(m) && Allowed(m, s)
    ensures StoreOk(AfterStep(m, s)) && (KeysUnique(m) ==> KeysUnique(AfterStep(m, s)))
  {
    hide StoreOk, KeysUnique, Keys, BuildRecord, Recall, ValidRecord, UsableId, Decayed, Cleaned, Compacted,
        AllPreserved, KeyOf;
    match s.act
    case Create(id, input) =>
      BuiltKey(id, s.at, input);
      StoreOkMore(m, BuildRecord(id, s.at, input));
      if KeysUnique(m) {
        NewKeyUnique(m, BuildRecord(id, s.at, input));
      }
    case Read(id) =>
      RecallOk(m, id, s.at);
    case Job(job) =>
      JobOk(m, job, s.at);
  }

  lemma JobOk(m: Records, job: JobType, now: Time)
    requires StoreOk(m)
    ensures StoreOk(AfterJob(m, job, now)) && (KeysUnique(m) ==> KeysUnique(AfterJob(m, job, now)))
  {
    hide StoreOk, KeysUnique, RemoveSet, StaleSet, DecaySet, PreserveSet, Load, Decay, Preserve;
    match job
    case DecayUpdate =>
      DecayedOk(m, DecaySet(m, now), now);
      KeysThroughJob(m, job, now);
    case ExpiredCleanup =>
      StoreOkLess(m, RemoveSet(m, now));
      KeysThroughJob(m, job, now);
    case StaleCompaction =>
      StoreOkLess(m, StaleSet(m));
      KeysThroughJob(m, job, now);
    case ReplayPreservation =>
      PreservedOk(m, PreserveSet(m), now);
      KeysThroughJob(m, job, now);
    case OtherJob(_) =>
  }

  lemma KeysThroughJob(m: Records, job: JobType, now: Time)
    ensures KeysUnique(m) ==> KeysUnique(AfterJob(m, job, now))
  {
    hide KeysUnique, RemoveSet, StaleSet, DecaySet, PreserveSet, Load, Decay, Preserve;
    var n := AfterJob(m, job, now);
    forall id | id in n ensures id in m && n[id].idempotencyKey == m[id].idempotencyKey {
      LoadFields(m[id]);
      DecayFields(Load(m[id]), now);
      PreserveFields(Load(m[id]), now);
    }
    if KeysUnique(m) {
      SameKeysUnique(m, n);
    }
  }

  /** Every run keeps every record readable as a valid one, and keeps at most one record per idempotency key. */
  lemma {:induction false} RunKeeps(m: Records, from: Time, steps: seq<Step>)
    requires StoreOk(m) && IsRun(m, from, steps)
    ensures StoreOk(After(m, steps)) && (KeysUnique(m) ==> KeysUnique(After(m, steps)))
  {
    hide StoreOk, KeysUnique, Allowed, AfterStep;
    if steps != [] {
      RunKeeps(m, from, steps[..|steps| - 1]);
      StepOk(After(m, steps[..|steps| - 1]), steps[|steps| - 1]);
    }
  }

  // ----- counts -----

  ghost function CreatedIn(steps: seq<Step>): nat {
    if steps == [] then 0 else CreatedIn(steps[..|steps| - 1]) + if steps[|steps| - 1].act.Create? then 1 else 0
  }

  /** What the deleting jobs of a run report, added up. */
  ghost function ReportedDeletions(m: Records, steps: seq<Step>): nat {
    if steps == [] then 0
    else
      var front, last := steps[..|steps| - 1], steps[|steps| - 1];
      ReportedDeletions(m, front)
      + if last.act.Job? && CountName(last.act.job) == "deleted" then |Touched(After(m, front), last.act.job, last.at)|
        else 0
  }

  lemma StepCounts(m: Records, s: Step)
    requires Allowed(m, s)
    ensures |AfterStep(m, s)| == |m| + (if s.act.Create? then 1 else 0)
      - if s.act.Job? && CountName(s.act.job) == "deleted" then |Touched(m, s.act.job, s.at)| else 0
  {
    hide Touched, BuildRecord, Recall, UsableId, ValidRecord, KeyOf, Keys, AfterJob, CountName;
    match s.act
    case Create(id, input) =>
      assert AfterStep(m, s).Keys == m.Keys + {id};
    case Read(id) =>
      assert AfterStep(m, s).Keys == m.Keys;
    case Job(job) =>
      JobCounts(m, job, s.at);
  }

  /** No record is lost without being reported: the count changes by creations less reported deletions. */
  lemma {:induction false} RecordsAccountedFor(m: Records, from: Time, steps: seq<Step>)
    requires IsRun(m, from, steps)
    ensures |After(m, steps)| == |m| + CreatedIn(steps) - ReportedDeletions(m, steps)
  {
    hide Touched, Allowed, AfterStep, CountName;
    if steps != [] {
      RecordsAccountedFor(m, from, steps[..|steps| - 1]);
      StepCounts(After(m, steps[..|steps| - 1]), steps[|steps| - 1]);
    }
  }

  // ----- protection -----

  lemma StepProtects(m: Records, s: Step, id: string)
    requires Allowed(m, s) && id in m && (Load(m[id]).pinned || Load(m[id]).replayLinked)
    ensures var n := AfterStep(m, s);
      && id in n
      && (Load(m[id]).pinned ==> Load(n[id]).pinned) && (Load(m[id]).replayLinked ==> Load(n[id]).replayLinked)
  {
    hide Load, Recall, Decay, Preserve, Allowed, AfterStep, DecayDue, Newest, Replayish, IsExpired;
    StepEffect(m, s, id);
    LoadFields(m[id]);
    LoadRecalled(m[id], s.at);
    LoadDecayed(m[id], s.at);
    LoadPreserved(m[id], s.at);
  }

  /** Once a record reads as pinned or replay-linked, no run removes it or clears that. */
  lemma {:induction false} ProtectedSurvives(m: Records, from: Time, steps: seq<Step>, id: string)
    requires IsRun(m, from, steps) && id in m && (Load(m[id]).pinned || Load(m[id]).replayLinked)
    ensures var n := After(m, steps);
      && id in n
      && (Load(m[id]).pinned ==> Load(n[id]).pinned) && (Load(m[id]).replayLinked ==> Load(n[id]).replayLinked)
  {
    hide Load, Allowed, AfterStep;
    if steps != [] {
      ProtectedSurvives(m, from, steps[..|steps| - 1], id);
      StepProtects(After(m, steps[..|steps| - 1]), steps[|steps| - 1], id);
    }
  }

  /** Every replay case and every replay_preserve record reads as linked, so it is protected. */
  lemma ReplayIsProtected(r: MemoryRecord)
    requires IsReplayCase(r) || r.retention == ReplayPreserve
    ensures Load(r).replayLinked
  {
    LoadFields(r);
    hide Load, Clean;
  }

  predicate KeepsForever(p: RetentionPolicy) {
    p == Preserved || p == ReplayPreserve
  }

  lemma StepKeepsPreserved(m: Records, s: Step, id: string)
    requires Allowed(m, s) && id in m && KeepsForever(Load(m[id]).retention)
    ensures var n := AfterStep(m, s);
      && (id !in n ==> s.act == Job(StaleCompaction) && !Newest(m, id) && !Protected(Load(m[id])))
      && (id in n ==> KeepsForever(Load(n[id]).retention))
  {
    hide Load, Recall, Decay, Preserve, Allowed, AfterStep, DecayDue, Newest, Replayish, IsExpired;
    StepEffect(m, s, id);
    LoadFields(m[id]);
    LoadRecalled(m[id], s.at);
    LoadDecayed(m[id], s.at);
    LoadPreserved(m[id], s.at);
  }

  /** A preserved record that is neither pinned nor linked is removed by compaction or not at all. */
  lemma {:induction false} PreservedOnlyCompacted(m: Records, from: Time, steps: seq<Step>, id: string)
    requires IsRun(m, from, steps) && id in m && KeepsForever(Load(m[id]).retention)
    requires forall i :: 0 <= i < |steps| ==> steps[i].act != Job(StaleCompaction)
    ensures id in After(m, steps) && KeepsForever(Load(After(m, steps)[id]).retention)
  {
    hide Load, Allowed, AfterStep, Newest, Protected;
    if steps != [] {
      PreservedOnlyCompacted(m, from, steps[..|steps| - 1], id);
      StepKeepsPreserved(After(m, steps[..|steps| - 1]), steps[|steps| - 1], id);
    }
  }

  // ----- replay preservation -----

  lemma StepKeepsFullyPreserved(m: Records, s: Step, id: string)
    requires Allowed(m, s) && s.act != Read(id) && id in m && FullyPreserved(Load(m[id]))
    ensures id in AfterStep(m, s) && FullyPreserved(Load(AfterStep(m, s)[id]))
  {
    hide Load, Recall, Decay, Preserve, Allowed, AfterStep, Newest, Replayish, IsExpired, Window;
    StepEffect(m, s, id);
    LoadPreserved(m[id], s.at);
  }

  /** What replay preservation has established stays through every run of jobs, creations and reads of other records. */
  lemma {:induction false} FullyPreservedStays(m: Records, from: Time, steps: seq<Step>, id: string)
    requires IsRun(m, from, steps) && id in m && FullyPreserved(Load(m[id]))
    requires forall i :: 0 <= i < |steps| ==> steps[i].act != Read(id)
    ensures id in After(m, steps) && FullyPreserved(Load(After(m, steps)[id]))
  {
    hide Load, Allowed, AfterStep, FullyPreserved;
    if steps != [] {
      FullyPreservedStays(m, from, steps[..|steps| - 1], id);
      StepKeepsFullyPreserved(After(m, steps[..|steps| - 1]), steps[|steps| - 1], id);
    }
  }

  // ----- decay spacing -----

  /** Step i of the run decays the record. */
  ghost predicate Decays(m: Records, steps: seq<Step>, i: nat, id: string)
    requires i < |steps|
  {
    steps[i].act == Job(DecayUpdate) && id in DecaySet(After(m, steps[..i]), steps[i].at)
  }

  lemma StepTouches(m: Records, s: Step, id: string, t: Time)
    requires Allowed(m, s) && t <= s.at && (id in m ==> t <= m[id].updatedAt)
    ensures var n := AfterStep(m, s); id in n ==> t <= n[id].updatedAt
  {
    hide Load, Allowed, AfterStep, DecayDue, Newest, Replayish, Removable, Protected, ComputeStability, BuildRecord;
    StepEffect(m, s, id);
    if s.act.Create? {
      BuiltAt(id, s.at, s.act.input);
    }
  }

  lemma BuiltAt(id: string, now: Time, input: CreateInput)
    ensures BuildRecord(id, now, input).updatedAt == now
  {
    hide Trim, Clean, FirstNonEmpty, BuildNamespace, ComputeStability, DefaultPolicy;
  }

  lemma {:induction false} UpdatedSince(m: Records, from: Time, steps: seq<Step>, i: nat, id: string)
    requires IsRun(m, from, steps) && i < |steps| && Decays(m, steps, i, id)
    ensures var n := After(m, steps); id in n ==> steps[i].at <= n[id].updatedAt
    decreases |steps|
  {
    hide Load, Allowed, AfterStep, DecaySet;
    var front, last := steps[..|steps| - 1], steps[|steps| - 1];
    if i == |front| {
      assert steps[..i] == front;
      JustUpdated(After(m, front), last.at, id);
    } else {
      assert front[..i] == steps[..i];
      UpdatedSince(m, from, front, i, id);
      RunPrefix(m, from, front, i + 1);
      StepTouches(After(m, front), last, id, steps[i].at);
    }
  }

  lemma JustUpdated(m: Records, now: Time, id: string)
    requires id in DecaySet(m, now)
    ensures var n := AfterStep(m, Step(Job(DecayUpdate), now)); id in n && n[id].updatedAt == now
  {
    hide Load, DecayDue;
  }

  /**
    Two decays of the same record in one run are at least 12 hours apart, 24 for a record that is not session
    retained, whatever happens in between, as long as the record's 64-bit window at the second reaches that far.
   */
  lemma DecaySpacing(m: Records, from: Time, steps: seq<Step>, i: nat, j: nat, id: string)
    requires IsRun(m, from, steps) && i < j < |steps|
    requires Decays(m, steps, i, id) && Decays(m, steps, j, id)
    requires var r := Load(After(m, steps[..j])[id]); LeastGap(r) <= Window(r)
    ensures steps[i].at + LeastGap(Load(After(m, steps[..j])[id])) <= steps[j].at
  {
    hide Load, Allowed, AfterStep, DecayDue, LeastGap, Window;
    RunPrefix(m, from, steps, j);
    var n := After(m, steps[..j]);
    assert steps[..j][..i] == steps[..i];
    UpdatedSince(m, from, steps[..j], i, id);
    LoadFields(n[id]);
    DueAfterWindow(Load(n[id]), steps[j].at);
  }

  /** Decay at one time and again at another. */
  function TwoDecays(first: Time, second: Time): seq<Step> {
    [Step(Job(DecayUpdate), first), Step(Job(DecayUpdate), second)]
  }

  ghost predicate DecaysTwice(m: Records, first: Time, second: Time, id: string) {
    var steps := TwoDecays(first, second);
    IsRun(m, first, steps) && Decays(m, steps, 0, id) && Decays(m, steps, 1, id)
  }

  /**
    Whenever a record has just been decayed, some run decays it again too early if and only if it is early due: its
    window ends, or has wrapped to end, within the least gap and before it expires.
   */
  lemma SpacingExact(m: Records, now: Time, id: string)
    requires id in DecaySet(m, now)
    ensures var d := Load(Decayed(m, now)[id]);
      (exists t :: now <= t < now + LeastGap(d) && DecaysTwice(m, now, t, id)) <==> EarlyDue(d)
  {
    hide Load, DecayDue, Decay, LeastGap, EarlyDue, Window, IsRun, Decays;
    var n := Decayed(m, now);
    var d := Load(n[id]);
    StillDecayable(m[id], now);
    GapExact(d);
    forall t | now <= t ensures DecaysTwice(m, now, t, id) <==> DecayDue(d, t) {
      TwiceDue(m, now, t, id);
    }
  }

  lemma TwiceDue(m: Records, now: Time, t: Time, id: string)
    requires id in DecaySet(m, now) && now <= t
    ensures DecaysTwice(m, now, t, id) <==> DecayDue(Load(Decayed(m, now)[id]), t)
  {
    hide Load, DecayDue, Decay;
    var steps := TwoDecays(now, t);
    assert steps[..0] == [] && steps[..1] == [steps[0]] && steps[..1][..0] == [];
    assert After(m, steps[..0]) == m;
    assert After(m, steps[..1]) == Decayed(m, now);
    assert IsRun(m, now, steps[..0]) && IsRun(m, now, steps[..1]);
  }

  // ----- calls -----

  /** The steps lead from m to n in the time between. */
  ghost predicate Extends(m: Records, from: Time, n: Records, to: Time, steps: seq<Step>) {
    IsRun(m, from, steps) && n == After(m, steps) && EndTime(from, steps) <= to
  }

  lemma NoStep(m: Records, from: Time, to: Time)
    requires from <= to
    ensures Extends(m, from, m, to, [])
  {
  }

  lemma OneStep(m: Records, from: Time, s: Step, to: Time)
    requires from <= s.at <= to && Allowed(m, s)
    ensures Extends(m, from, AfterStep(m, s), to, [s])
  {
    hide Allowed, AfterStep;
    assert [s][..0] == [];
    assert IsRun(m, from, []) && After(m, [s][..0]) == m;
  }

  lemma {:induction false} RunThenRun(m: Records, from: Time, first: seq<Step>, middle: Time, second: seq<Step>)
    requires IsRun(m, from, first) && EndTime(from, first) <= middle && IsRun(After(m, first), middle, second)
    ensures IsRun(m, from, first + second) && After(m, first + second) == After(After(m, first), second)
    ensures EndTime(from, first + second) == if second == [] then EndTime(from, first) else EndTime(middle, second)
  {
    hide Allowed, AfterStep;
    var all := first + second;
    if second == [] {
      assert all == first;
    } else {
      var front := second[..|second| - 1];
      RunThenRun(m, from, first, middle, front);
      assert all[..|all| - 1] == first + front && all[|all| - 1] == second[|second| - 1];
    }
  }

  /** Runs compose. */
  lemma ExtendsMore(a: Records, start: Time, b: Records, middle: Time, c: Records, end: Time, first: seq<Step>,
                    second: seq<Step>)
    requires Extends(a, start, b, middle, first) && Extends(b, middle, c, end, second) && middle <= end
    ensures Extends(a, start, c, end, first + second)
  {
    hide IsRun, After, EndTime;
    RunThenRun(a, start, first, middle, second);
    EndLater(start, first, middle, second, end);
  }

  lemma EndLater(start: Time, first: seq<Step>, middle: Time, second: seq<Step>, end: Time)
    requires EndTime(start, first) <= middle <= end && EndTime(middle, second) <= end
    ensures EndTime(start, first + second) <= end
  {
  }

  /**
    The steps are what creating from the inputs one after the other writes: nothing for an input whose key is in use
    when its turn comes, one creation for every other.
   */
  ghost predicate CreationsOf(m: Records, inputs: seq<CreateInput>, steps: seq<Step>) {
    if inputs == [] then steps == []
    else
      var front, last := inputs[..|inputs| - 1], inputs[|inputs| - 1];
      || (CreationsOf(m, front, steps) && Trim(last.idempotencyKey) in Keys(After(m, steps)))
      || (steps != [] && CreationsOf(m, front, steps[..|steps| - 1]) && CreatesFrom(steps[|steps| - 1], last)
          && Trim(last.idempotencyKey) !in Keys(After(m, steps[..|steps| - 1])))
  }

  predicate CreatesFrom(s: Step, input: CreateInput) {
    s.act.Create? && s.act.input == input
  }

  lemma CreationsMore(m: Records, inputs: seq<CreateInput>, steps: seq<Step>, input: CreateInput, more: seq<Step>)
    requires CreationsOf(m, inputs, steps)
    requires if Trim(input.idempotencyKey) in Keys(After(m, steps)) then more == []
      else |more| == 1 && CreatesFrom(more[0], input)
    ensures CreationsOf(m, inputs + [input], steps + more)
  {
    hide After, Keys, Trim;
    var all := inputs + [input];
    assert all[..|all| - 1] == inputs;
    if more == [] {
      assert steps + more == steps;
    } else {
      assert (steps + more)[..|steps + more| - 1] == steps;
    }
  }

  lemma {:induction false} CreationsAreFrom(m: Records, inputs: seq<CreateInput>, steps: seq<Step>, s: Step)
    requires CreationsOf(m, inputs, steps) && s in steps
    ensures s.act.Create? && s.act.input in inputs
    decreases |inputs|
  {
    hide After, Keys, Trim;
    if inputs != [] {
      var front, last := inputs[..|inputs| - 1], inputs[|inputs| - 1];
      if CreationsOf(m, front, steps) {
        CreationsAreFrom(m, front, steps, s);
      } else if s != steps[|steps| - 1] {
        assert s in steps[..|steps| - 1];
        CreationsAreFrom(m, front, steps[..|steps| - 1], s);
      }
    }
  }
}
