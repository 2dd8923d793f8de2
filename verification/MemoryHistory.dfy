/** Any sequence of calls on the memory service and the maintenance service is a run in the sense of MemoryRuns. */
module MemoryHistory {
  import opened Text
  import opened MemoryModel
  import opened MemoryStore
  import opened MemoryCreation
  import opened Maintenance
  import opened MemoryRuns
  import opened Aggregates
  import MemoryService
  import Ops

  datatype Call =
    | CreateRecord(input: CreateInput)
    | CreateBatch(inputs: seq<CreateInput>)
    | GetRecord(id: string)
    | RunJob(job: JobType)
    | Summarize(view: View, query: MemoryQuery)

  // ----- from calls to steps -----

  /** The steps are what the call writes to a store with these records. */
  ghost predicate MadeBy(m: Records, call: Call, steps: seq<Step>) {
    match call
    case CreateRecord(input) => steps == [] || CreationsOf(m, [input], steps)
    case CreateBatch(inputs) => exists n :: 0 <= n <= |inputs| && CreationsOf(m, inputs[..n], steps)
    case GetRecord(id) => steps == [] || (|steps| == 1 && steps[0].act == Read(id))
    case RunJob(job) => if job.OtherJob? then steps == [] else |steps| == 1 && steps[0].act == Job(job)
    case Summarize(_, _) => steps == []
  }

  function Flat(trace: seq<seq<Step>>): seq<Step> {
    if trace == [] then [] else Flat(trace[..|trace| - 1]) + trace[|trace| - 1]
  }

  /** The trace gives the steps of each call, in order. */
  ghost predicate Traced(m: Records, calls: seq<Call>, trace: seq<seq<Step>>) {
    |trace| == |calls| && forall i :: 0 <= i < |calls| ==> MadeBy(After(m, Flat(trace[..i])), calls[i], trace[i])
  }

  /** Is there a call that asks for this? */
  ghost predicate AskedBy(act: Act, calls: seq<Call>) {
    match act
    case Create(_, input) =>
      CreateRecord(input) in calls || exists inputs :: CreateBatch(inputs) in calls && input in inputs
    case Read(id) => GetRecord(id) in calls
    case Job(job) => RunJob(job) in calls
  }

  lemma TracedMore(m: Records, calls: seq<Call>, trace: seq<seq<Step>>, call: Call, steps: seq<Step>)
    requires Traced(m, calls, trace) && MadeBy(After(m, Flat(trace)), call, steps)
    ensures Traced(m, calls + [call], trace + [steps]) && Flat(trace + [steps]) == Flat(trace) + steps
  {
    hide After, MadeBy;
    var more := trace + [steps];
    assert more[..|trace|] == trace;
    forall i | 0 <= i < |calls| + 1 ensures MadeBy(After(m, Flat(more[..i])), (calls + [call])[i], more[i]) {
      assert i < |calls| ==> more[..i] == trace[..i];
    }
  }

  /** No step without a call that asks for it. */
  lemma {:induction false} StepsAreAsked(m: Records, calls: seq<Call>, trace: seq<seq<Step>>, s: Step)
    requires Traced(m, calls, trace) && s in Flat(trace)
    ensures AskedBy(s.act, calls)
    decreases |trace|
  {
    hide After;
    var n := |trace| - 1;
    var front := trace[..n];
    if s in trace[n] {
      StepIsAsked(After(m, Flat(front)), calls[n], trace[n], s);
      assert calls[n] in calls;
    } else {
      assert forall i :: 0 <= i < n ==> front[..i] == trace[..i];
      StepsAreAsked(m, calls[..n], front, s);
      assert forall c :: c in calls[..n] ==> c in calls;
    }
  }

  lemma StepIsAsked(m: Records, call: Call, steps: seq<Step>, s: Step)
    requires MadeBy(m, call, steps) && s in steps
    ensures AskedBy(s.act, [call])
    ensures forall calls: seq<Call> :: call in calls ==> AskedBy(s.act, calls)
  {
    hide After, CreationsOf;
    assert call in [call];
    match call
    case CreateRecord(input) => CreationsAreFrom(m, [input], steps, s);
    case CreateBatch(inputs) =>
      var n :| 0 <= n <= |inputs| && CreationsOf(m, inputs[..n], steps);
      CreationsAreFrom(m, inputs[..n], steps, s);
    case _ =>
  }

  // ----- what holds of any sequence of calls -----

  /** Decays of one record are the least gap apart wherever its 64-bit window reaches that far. */
  ghost predicate Spaced(m: Records, steps: seq<Step>) {
    forall i, j, id :: 0 <= i < j < |steps| && Decays(m, steps, i, id) && Decays(m, steps, j, id) ==>
      var r := Load(After(m, steps[..j])[id]);
      LeastGap(r) <= Window(r) ==> steps[i].at + LeastGap(r) <= steps[j].at
  }

  ghost predicate StaysProtected(m: Records, n: Records) {
    forall id :: id in m && Protected(Load(m[id])) ==> id in n && Protected(Load(n[id]))
  }

  ghost predicate StaysForever(m: Records, n: Records) {
    forall id :: id in m && KeepsForever(Load(m[id]).retention) ==> id in n && KeepsForever(Load(n[id]).retention)
  }

  /** What the calls have made of a store. */
  ghost predicate Outcome(m: Records, n: Records, calls: seq<Call>, steps: seq<Step>) {
    && (KeysUnique(m) ==> KeysUnique(n))
    && |n| == |m| + CreatedIn(steps) - ReportedDeletions(m, steps)
    && StaysProtected(m, n)
    && (RunJob(StaleCompaction) !in calls ==> StaysForever(m, n))
    && (forall id :: id in m && FullyPreserved(Load(m[id])) && GetRecord(id) !in calls ==>
          id in n && FullyPreserved(Load(n[id])))
    && Spaced(m, steps)
  }

  lemma RunOutcome(m: Records, from: Time, calls: seq<Call>, trace: seq<seq<Step>>)
    requires StoreOk(m) && IsRun(m, from, Flat(trace)) && Traced(m, calls, trace)
    ensures Outcome(m, After(m, Flat(trace)), calls, Flat(trace))
  {
    hide StoreOk, KeysUnique, Load, IsRun, After, Traced, Flat, Spaced, FullyPreserved;
    var steps := Flat(trace);
    RunKeeps(m, from, steps);
    RecordsAccountedFor(m, from, steps);
    RunSpaced(m, from, steps);
    forall i | 0 <= i < |steps| ensures AskedBy(steps[i].act, calls) {
      StepsAreAsked(m, calls, trace, steps[i]);
    }
    forall id | id in m && Protected(Load(m[id]))
      ensures id in After(m, steps) && Protected(Load(After(m, steps)[id]))
    {
      ProtectedSurvives(m, from, steps, id);
    }
    if RunJob(StaleCompaction) !in calls {
      forall id | id in m && KeepsForever(Load(m[id]).retention)
        ensures id in After(m, steps) && KeepsForever(Load(After(m, steps)[id]).retention)
      {
        PreservedOnlyCompacted(m, from, steps, id);
      }
    }
    forall id | id in m && FullyPreserved(Load(m[id])) && GetRecord(id) !in calls
      ensures id in After(m, steps) && FullyPreserved(Load(After(m, steps)[id]))
    {
      FullyPreservedStays(m, from, steps, id);
    }
  }

  lemma RunSpaced(m: Records, from: Time, steps: seq<Step>)
    requires IsRun(m, from, steps)
    ensures Spaced(m, steps)
  {
    hide Load, IsRun, After, LeastGap, Window, Decays;
    forall i, j, id | 0 <= i < j < |steps| && Decays(m, steps, i, id) && Decays(m, steps, j, id)
      ensures id in After(m, steps[..j])
      ensures var r := Load(After(m, steps[..j])[id]); LeastGap(r) <= Window(r) ==>
        steps[i].at + LeastGap(r) <= steps[j].at
    {
      DecaysStored(m, steps, j, id);
      if LeastGap(Load(After(m, steps[..j])[id])) <= Window(Load(After(m, steps[..j])[id])) {
        DecaySpacing(m, from, steps, i, j, id);
      }
    }
  }

  lemma DecaysStored(m: Records, steps: seq<Step>, j: nat, id: string)
    requires j < |steps| && Decays(m, steps, j, id)
    ensures id in After(m, steps[..j])
  {
    hide Load, After, DecayDue;
  }

  /**
    Whatever is called, in whatever order, the calls amount to a run whose steps are those the calls ask for, and what
    is proved of runs holds of it.
   */
  method Run(service: Ops.Service, calls: seq<Call>) returns (ghost trace: seq<seq<Step>>)
    requires service.Valid()
    modifies service, service.memory.store, service.memory.clock
    ensures service.Valid()
    ensures var m, from := old(service.memory.store.records), old(service.memory.clock.last);
      && Traced(m, calls, trace)
      && Extends(m, from, service.memory.store.records, service.memory.clock.last, Flat(trace))
      && Outcome(m, service.memory.store.records, calls, Flat(trace))
  {
    hide StoreOk, Extends, Traced, MadeBy, Outcome, Flat, After;
    ghost var m, from := service.memory.store.records, service.memory.clock.last;
    NoStep(m, from, from);
    trace := [];
    NoTrace(m);
    assert calls[..0] == [];
    for i := 0 to |calls|
      invariant service.Valid() && from <= service.memory.clock.last
      invariant Traced(m, calls[..i], trace)
      invariant Extends(m, from, service.memory.store.records, service.memory.clock.last, Flat(trace))
    {
      ghost var before, since := service.memory.store.records, service.memory.clock.last;
      ghost var steps := Perform(service, calls[i]);
      MemoryService.ReachedBy(m, from, before, since, Flat(trace));
      TracedMore(m, calls[..i], trace, calls[i], steps);
      ExtendsMore(m, from, before, since, service.memory.store.records, service.memory.clock.last, Flat(trace), steps);
      assert calls[..i + 1] == calls[..i] + [calls[i]];
      trace := trace + [steps];
    }
    assert calls[..|calls|] == calls;
    ExtendsRun(m, from, service.memory.store.records, service.memory.clock.last, Flat(trace));
    RunOutcome(m, from, calls, trace);
  }

  lemma NoTrace(m: Records)
    ensures Traced(m, [], []) && Flat([]) == []
  {
  }

  lemma ExtendsRun(m: Records, from: Time, n: Records, to: Time, steps: seq<Step>)
    requires Extends(m, from, n, to, steps)
    ensures IsRun(m, from, steps) && After(m, steps) == n
  {
    hide IsRun, After, EndTime;
  }

  method Perform(service: Ops.Service, call: Call) returns (ghost steps: seq<Step>)
    requires service.Valid()
    modifies service, service.memory.store, service.memory.clock
    ensures service.Valid() && old(service.memory.clock.last) <= service.memory.clock.last
    ensures Extends(old(service.memory.store.records), old(service.memory.clock.last),
                    service.memory.store.records, service.memory.clock.last, steps)
    ensures MadeBy(old(service.memory.store.records), call, steps)
  {
    hide StoreOk, KeysUnique, Load, Extends, CreationsOf, Added, AfterJob, Touched, ValidRecord, BuildRecord, Recall,
      KeyOf, Keys,
        Summarized, NormalizeQuery, Selected, UsableId, Acceptable, MemoryService.Refused;
    ghost var m, from := service.memory.store.records, service.memory.clock.last;
    NoStep(m, from, from);
    match call {
      case CreateRecord(input) =>
        var created := service.memory.Create(input);
        if created.Ok? {
          steps := MemoryService.CreatedSteps(m, from, input, created.value, service.memory.store.records,
                                              service.memory.clock.last);
          OneCreation(m, input, steps);
        } else {
          NoStep(m, from, service.memory.clock.last);
          steps := [];
        }
      case CreateBatch(inputs) =>
        var _, n, made := service.memory.CreateBatch(inputs);
        BatchMade(m, inputs, n, made);
        steps := made;
      case GetRecord(id) =>
        var _ := service.memory.Get(id);
        steps := ReadSteps(m, from, id, service.memory.store.records, service.memory.clock.last);
      case RunJob(job) =>
        var status := service.RunJob(job);
        if status.Ok? {
          ghost var at := status.value.lastRunAt.value;
          OneStep(m, from, Step(Job(job), at), service.memory.clock.last);
          steps := [Step(Job(job), at)];
        } else {
          NoStep(m, from, service.memory.clock.last);
          steps := [];
        }
      case Summarize(view, query) =>
        var _ := service.Summaries(view, query);
        NoStep(m, from, service.memory.clock.last);
        steps := [];
    }
  }

  lemma BatchMade(m: Records, inputs: seq<CreateInput>, n: nat, steps: seq<Step>)
    requires n <= |inputs| && CreationsOf(m, inputs[..n], steps)
    ensures MadeBy(m, CreateBatch(inputs), steps)
  {
    hide CreationsOf;
  }

  lemma OneCreation(m: Records, input: CreateInput, steps: seq<Step>)
    requires if Trim(input.idempotencyKey) in Keys(m) then steps == [] else |steps| == 1 && CreatesFrom(steps[0], input)
    ensures CreationsOf(m, [input], steps)
  {
    hide Keys, Trim;
    assert [input] == [] + [input] && steps == [] + steps;
    CreationsMore(m, [], [], input, steps);
  }

  lemma ReadSteps(m: Records, from: Time, id: string, n: Records, to: Time) returns (steps: seq<Step>)
    requires from <= to
    requires n == m || (id in m && ValidRecord(Recall(m[id], to)) && n == m[id := Recall(m[id], to)])
    ensures Extends(m, from, n, to, steps) && (steps == [] || (|steps| == 1 && steps[0].act == Read(id)))
  {
    hide ValidRecord, Recall, Extends;
    if n == m {
      NoStep(m, from, to);
      steps := [];
    } else {
      OneStep(m, from, Step(Read(id), to), to);
      steps := [Step(Read(id), to)];
    }
  }
}
