/** Workers on a thread pool that share a directory, and the thread that collects their results as they
    complete (`run` in asm_cleanup/pipeline/pipeline_orchestrator.py). `C` is the type of file contents,
    `R` the type of results. */
module ConcurrentRun {
  import opened Wrappers

  type Files<C> = map<string, C>

  /** What a worker does once it has looked at its own transcript: writes in order, then a result or an exception. */
  datatype Job<C, R> = Job(writes: seq<(string, C)>, outcome: Option<R>)

  datatype Program<!C, !R> = Program(
    workers: nat,
    input: nat -> string,
    plan: (nat, Option<C>) -> Job<C, R>,
    owner: string -> Option<nat>)

  function Look<C>(files: Files<C>, name: string): Option<C> {
    if name in files then Some(files[name]) else None
  }

  function Apply<C>(files: Files<C>, writes: seq<(string, C)>): Files<C> {
    if writes == [] then files
    else Apply(files, writes[..|writes| - 1])[writes[|writes| - 1].0 := writes[|writes| - 1].1]
  }

  /** A worker reads and writes only files that it owns; a file has at most one owner. */
  ghost predicate Separate<C(!new), R(!new)>(p: Program<C, R>) {
    && (forall i :: 0 <= i < p.workers ==> p.owner(p.input(i)) == Some(i))
    && (forall i, before, k :: 0 <= i < p.workers && 0 <= k < |p.plan(i, before).writes| ==>
          p.owner(p.plan(i, before).writes[k].0) == Some(i))
  }

  function JobOf<C, R>(p: Program<C, R>, files: Files<C>, i: nat): Job<C, R> {
    p.plan(i, Look(files, p.input(i)))
  }

  // ---------------------------------------------------------------- one after the other

  function SequentialFiles<C, R>(p: Program<C, R>, files: Files<C>, n: nat): Files<C> {
    if n == 0 then files
    else
      var before := SequentialFiles(p, files, n - 1);
      Apply(before, JobOf(p, before, n - 1).writes)
  }

  // ---------------------------------------------------------------- interleaved

  datatype Worker<C, R> = Waiting | Running(job: Job<C, R>, done: nat) | Collected

  datatype RunState<C, R> = RunState(
    files: Files<C>,
    workers: seq<Worker<C, R>>,
    results: seq<Option<R>>,
    raised: Option<nat>)

  /** A worker starts, a worker makes its next write, the collecting thread takes a completed worker. */
  datatype Event = Start(i: nat) | Write(i: nat) | Collect(i: nat)

  function Initial<C, R>(p: Program<C, R>, files: Files<C>): RunState<C, R> {
    RunState(files, seq(p.workers, i => Waiting), seq(p.workers, i => None), None)
  }

  /** The effect of an event, or None when it cannot happen. Once a failed worker has been collected the
      exception leaves the collecting loop; the pool still lets the other workers finish. */
  function Do<C, R>(p: Program<C, R>, s: RunState<C, R>, e: Event): Option<RunState<C, R>> {
    if e.i >= |s.workers| || e.i >= |s.results| then None
    else
      var w := s.workers[e.i];
      match e
      case Start(i) =>
        if w.Waiting? then Some(s.(workers := s.workers[i := Running(JobOf(p, s.files, i), 0)])) else None
      case Write(i) =>
        if w.Running? && w.done < |w.job.writes| then
          var (name, content) := w.job.writes[w.done];
          Some(s.(files := s.files[name := content], workers := s.workers[i := Running(w.job, w.done + 1)]))
        else None
      case Collect(i) =>
        if s.raised.None? && w.Running? && w.done == |w.job.writes| then
          var s1 := s.(workers := s.workers[i := Collected]);
          Some(if w.job.outcome.Some? then s1.(results := s.results[i := w.job.outcome]) else s1.(raised := Some(i)))
        else None
  }

  function Exec<C, R>(p: Program<C, R>, s: RunState<C, R>, events: seq<Event>): Option<RunState<C, R>> {
    if events == [] then Some(s)
    else
      match Exec(p, s, events[..|events| - 1])
      case None => None
      case Some(t) => Do(p, t, events[|events| - 1])
  }

  predicate Finished<C, R>(w: Worker<C, R>) {
    w.Collected? || (w.Running? && w.done == |w.job.writes|)
  }

  /** Nothing is left to do: all workers have finished, and all were collected unless an exception was raised. */
  predicate Terminal<C, R>(s: RunState<C, R>) {
    && (forall i :: 0 <= i < |s.workers| ==> Finished(s.workers[i]))
    && (s.raised.None? ==> forall i :: 0 <= i < |s.workers| ==> s.workers[i].Collected?)
  }

  // ---------------------------------------------------------------- the invariant

  function Progress<C, R>(w: Worker<C, R>, job: Job<C, R>): nat {
    match w
    case Waiting => 0
    case Running(_, done) => if done <= |job.writes| then done else |job.writes|
    case Collected => |job.writes|
  }

  ghost predicate WorkerOk<C, R>(p: Program<C, R>, files: Files<C>, s: RunState<C, R>, i: nat)
    requires i < |s.workers| && i < |s.results|
  {
    var job, w := JobOf(p, files, i), s.workers[i];
    && (w.Running? ==> w.job == job && w.done <= |job.writes|)
    && (w.Collected? ==> s.results[i] == job.outcome && (job.outcome.None? ==> s.raised == Some(i)))
    && (!w.Collected? ==> s.results[i] == None)
    && (s.raised == Some(i) ==> w.Collected? && job.outcome.None?)
  }

  /** A file holds what its owner has written so far on top of the initial contents. */
  ghost predicate FileOk<C, R>(p: Program<C, R>, files: Files<C>, s: RunState<C, R>, name: string)
    requires |s.workers| == p.workers
  {
    var o := p.owner(name);
    Look(s.files, name) ==
      if o.Some? && o.value < p.workers then
        var job := JobOf(p, files, o.value);
        Look(Apply(files, job.writes[..Progress(s.workers[o.value], job)]), name)
      else Look(files, name)
  }

  ghost predicate Inv<C, R>(p: Program<C, R>, files: Files<C>, s: RunState<C, R>) {
    && |s.workers| == p.workers && |s.results| == p.workers
    && (s.raised.Some? ==> s.raised.value < p.workers)
    && (forall i :: 0 <= i < p.workers ==> WorkerOk(p, files, s, i))
    && (forall name :: FileOk(p, files, s, name))
  }

  lemma InitialInv<C, R>(p: Program<C, R>, files: Files<C>)
    ensures Inv(p, files, Initial(p, files))
  {
    var s := Initial(p, files);
    forall name ensures FileOk(p, files, s, name) {
      var o := p.owner(name);
      if o.Some? && o.value < p.workers {
        assert JobOf(p, files, o.value).writes[..0] == [];
      }
    }
  }

  lemma StartInv<C(!new), R(!new)>(p: Program<C, R>, files: Files<C>, s: RunState<C, R>, i: nat)
    requires Separate(p) && Inv(p, files, s) && Do(p, s, Start(i)).Some?
    ensures Inv(p, files, Do(p, s, Start(i)).value)
  {
    var t := Do(p, s, Start(i)).value;
    var own := p.input(i);
    assert FileOk(p, files, s, own);
    assert JobOf(p, files, i).writes[..0] == [];
    assert JobOf(p, s.files, i) == JobOf(p, files, i);
    forall k | 0 <= k < p.workers ensures WorkerOk(p, files, t, k) {
      assert WorkerOk(p, files, s, k);
    }
    forall name ensures FileOk(p, files, t, name) {
      assert FileOk(p, files, s, name);
    }
  }

  lemma WriteInv<C(!new), R(!new)>(p: Program<C, R>, files: Files<C>, s: RunState<C, R>, i: nat)
    requires Separate(p) && Inv(p, files, s) && Do(p, s, Write(i)).Some?
    ensures Inv(p, files, Do(p, s, Write(i)).value)
  {
    var t := Do(p, s, Write(i)).value;
    assert WorkerOk(p, files, s, i);
    var job, done := JobOf(p, files, i), s.workers[i].done;
    assert p.owner(job.writes[done].0) == Some(i);
    assert job.writes[..done + 1][..done] == job.writes[..done];
    forall k | 0 <= k < p.workers ensures WorkerOk(p, files, t, k) {
      assert WorkerOk(p, files, s, k);
    }
    forall name ensures FileOk(p, files, t, name) {
      assert FileOk(p, files, s, name);
    }
  }

  lemma CollectInv<C(!new), R(!new)>(p: Program<C, R>, files: Files<C>, s: RunState<C, R>, i: nat)
    requires Separate(p) && Inv(p, files, s) && Do(p, s, Collect(i)).Some?
    ensures Inv(p, files, Do(p, s, Collect(i)).value)
  {
    var t := Do(p, s, Collect(i)).value;
    assert WorkerOk(p, files, s, i);
    forall k | 0 <= k < p.workers ensures WorkerOk(p, files, t, k) {
      assert WorkerOk(p, files, s, k);
    }
    forall name ensures FileOk(p, files, t, name) {
      assert FileOk(p, files, s, name);
    }
  }

  /** The invariant holds in every state that any schedule can reach. */
  lemma {:induction false} ReachableInv<C(!new), R(!new)>(p: Program<C, R>, files: Files<C>, events: seq<Event>)
    requires Separate(p) && Exec(p, Initial(p, files), events).Some?
    ensures Inv(p, files, Exec(p, Initial(p, files), events).value)
  {
    if events == [] {
      InitialInv(p, files);
    } else {
      var front, e := events[..|events| - 1], events[|events| - 1];
      ReachableInv(p, files, front);
      var s := Exec(p, Initial(p, files), front).value;
      match e
      case Start(i) => StartInv(p, files, s, i);
      case Write(i) => WriteInv(p, files, s, i);
      case Collect(i) => CollectInv(p, files, s, i);
    }
  }

  // ---------------------------------------------------------------- the sequential outcome

  lemma {:induction false} ApplyElsewhere<C>(files: Files<C>, writes: seq<(string, C)>, name: string)
    requires forall k :: 0 <= k < |writes| ==> writes[k].0 != name
    ensures Look(Apply(files, writes), name) == Look(files, name)
  {
    if writes != [] { ApplyElsewhere(files, writes[..|writes| - 1], name); }
  }

  lemma {:induction false} ApplyOnAgreeing<C>(f: Files<C>, g: Files<C>, writes: seq<(string, C)>, name: string)
    requires Look(f, name) == Look(g, name)
    ensures Look(Apply(f, writes), name) == Look(Apply(g, writes), name)
  {
    if writes != [] { ApplyOnAgreeing(f, g, writes[..|writes| - 1], name); }
  }

  lemma {:induction false} SequentialLook<C(!new), R(!new)>(p: Program<C, R>, files: Files<C>, n: nat, name: string)
    requires Separate(p) && n <= p.workers
    ensures Look(SequentialFiles(p, files, n), name) ==
              var o := p.owner(name);
              if o.Some? && o.value < n then Look(Apply(files, JobOf(p, files, o.value).writes), name)
              else Look(files, name)
  {
    if n > 0 {
      var before := SequentialFiles(p, files, n - 1);
      SequentialLook(p, files, n - 1, name);
      SequentialLook(p, files, n - 1, p.input(n - 1));
      var job := JobOf(p, before, n - 1);
      assert job == JobOf(p, files, n - 1);
      if p.owner(name) == Some(n - 1) {
        ApplyOnAgreeing(before, files, job.writes, name);
      } else {
        forall k | 0 <= k < |job.writes| ensures job.writes[k].0 != name {
          assert p.owner(job.writes[k].0) == Some(n - 1);
        }
        ApplyElsewhere(before, job.writes, name);
      }
    }
  }

  // ---------------------------------------------------------------- confluence

  ghost predicate AllSucceed<C, R>(p: Program<C, R>, files: Files<C>) {
    forall i :: 0 <= i < p.workers ==> JobOf(p, files, i).outcome.Some?
  }

  lemma SameLooks<C>(f: Files<C>, g: Files<C>)
    requires forall name :: Look(f, name) == Look(g, name)
    ensures f == g
  {
    forall name ensures name in f <==> name in g { assert Look(f, name) == Look(g, name); }
    forall name | name in f ensures f[name] == g[name] { assert Look(f, name) == Look(g, name); }
  }

  /** Every schedule that runs to the end leaves the files of the sequential run. If no worker fails the
      result list is the per-path outcomes in path order; otherwise an exception of some failing worker is raised. */
  lemma RunIsConfluent<C(!new), R(!new)>(p: Program<C, R>, files: Files<C>, events: seq<Event>)
    requires Separate(p) && Exec(p, Initial(p, files), events).Some?
    requires Terminal(Exec(p, Initial(p, files), events).value)
    ensures var s := Exec(p, Initial(p, files), events).value;
            && s.files == SequentialFiles(p, files, p.workers)
            && (s.raised.None? <==> AllSucceed(p, files))
            && (s.raised.None? ==>
                 |s.results| == p.workers
                 && forall i :: 0 <= i < p.workers ==> s.results[i] == JobOf(p, files, i).outcome)
            && (s.raised.Some? ==> s.raised.value < p.workers && JobOf(p, files, s.raised.value).outcome.None?)
  {
    var s := Exec(p, Initial(p, files), events).value;
    ReachableInv(p, files, events);
    var sequential := SequentialFiles(p, files, p.workers);
    forall name ensures Look(s.files, name) == Look(sequential, name) {
      SequentialLook(p, files, p.workers, name);
      assert FileOk(p, files, s, name);
      var o := p.owner(name);
      if o.Some? && o.value < p.workers {
        var job := JobOf(p, files, o.value);
        assert WorkerOk(p, files, s, o.value) && Finished(s.workers[o.value]);
        assert job.writes[..|job.writes|] == job.writes;
      }
    }
    SameLooks(s.files, sequential);
    if s.raised.None? {
      forall i | 0 <= i < p.workers
        ensures s.results[i] == JobOf(p, files, i).outcome && JobOf(p, files, i).outcome.Some?
      {
        assert WorkerOk(p, files, s, i) && s.workers[i].Collected?;
      }
    } else {
      assert WorkerOk(p, files, s, s.raised.value);
    }
  }

  // ---------------------------------------------------------------- no deadlock, no endless run

  /** A reachable state that is not terminal has an event that can happen. */
  lemma NeverStuck<C(!new), R(!new)>(p: Program<C, R>, files: Files<C>, events: seq<Event>) returns (e: Event)
    requires Separate(p) && Exec(p, Initial(p, files), events).Some?
    requires !Terminal(Exec(p, Initial(p, files), events).value)
    ensures Do(p, Exec(p, Initial(p, files), events).value, e).Some?
  {
    var s := Exec(p, Initial(p, files), events).value;
    ReachableInv(p, files, events);
    if i: nat :| i < p.workers && !Finished(s.workers[i]) {
      assert WorkerOk(p, files, s, i);
      e := if s.workers[i].Waiting? then Start(i) else Write(i);
    } else {
      var i: nat :| i < p.workers && !s.workers[i].Collected?;
      assert Finished(s.workers[i]);
      e := Collect(i);
    }
  }

  function WorkLeft<C, R>(p: Program<C, R>, files: Files<C>, w: Worker<C, R>, i: nat): nat {
    match w
    case Waiting => 2 + |JobOf(p, files, i).writes|
    case Running(job, done) => if done <= |job.writes| then 1 + |job.writes| - done else 1
    case Collected => 0
  }

  function TotalLeft<C, R>(p: Program<C, R>, files: Files<C>, workers: seq<Worker<C, R>>): nat {
    if workers == [] then 0
    else TotalLeft(p, files, workers[..|workers| - 1]) + WorkLeft(p, files, workers[|workers| - 1], |workers| - 1)
  }

  lemma {:induction false} TotalAfterUpdate<C, R>(p: Program<C, R>, files: Files<C>, workers: seq<Worker<C, R>>, i: nat,
                                                  w: Worker<C, R>)
    requires i < |workers|
    ensures TotalLeft(p, files, workers[i := w]) + WorkLeft(p, files, workers[i], i)
            == TotalLeft(p, files, workers) + WorkLeft(p, files, w, i)
    decreases |workers|
  {
    var n := |workers| - 1;
    if i < n {
      TotalAfterUpdate(p, files, workers[..n], i, w);
      assert workers[i := w][..n] == workers[..n][i := w];
    } else {
      assert workers[i := w][..n] == workers[..n];
    }
  }

  /** Every event uses up one unit of the work that is left, so that every schedule ends. */
  lemma {:induction false} EveryScheduleEnds<C(!new), R(!new)>(p: Program<C, R>, files: Files<C>, events: seq<Event>)
    requires Separate(p) && Exec(p, Initial(p, files), events).Some?
    ensures |events| + TotalLeft(p, files, Exec(p, Initial(p, files), events).value.workers)
            == TotalLeft(p, files, Initial(p, files).workers)
  {
    if events != [] {
      var front, e := events[..|events| - 1], events[|events| - 1];
      EveryScheduleEnds(p, files, front);
      ReachableInv(p, files, front);
      ReachableInv(p, files, events);
      var s, t := Exec(p, Initial(p, files), front).value, Exec(p, Initial(p, files), events).value;
      assert WorkerOk(p, files, s, e.i) && WorkerOk(p, files, t, e.i);
      TotalAfterUpdate(p, files, s.workers, e.i, t.workers[e.i]);
      assert t.workers == s.workers[e.i := t.workers[e.i]];
    }
  }

  function Collections(events: seq<Event>, i: nat): nat {
    if events == [] then 0
    else Collections(events[..|events| - 1], i) + (if events[|events| - 1] == Collect(i) then 1 else 0)
  }

  /** A slot is filled by at most one collection, and a collected worker by exactly one. */
  lemma {:induction false} SlotsFilledOnce<C(!new), R(!new)>(p: Program<C, R>, files: Files<C>, events: seq<Event>,
                                                             i: nat)
    requires Separate(p) && Exec(p, Initial(p, files), events).Some? && i < p.workers
    ensures |Exec(p, Initial(p, files), events).value.workers| == p.workers
    ensures Collections(events, i) == if Exec(p, Initial(p, files), events).value.workers[i].Collected? then 1 else 0
  {
    ReachableInv(p, files, events);
    if events != [] {
      SlotsFilledOnce(p, files, events[..|events| - 1], i);
      ReachableInv(p, files, events[..|events| - 1]);
    }
  }

  // ---------------------------------------------------------------- the collecting loop

  /** Results are stored under their index in completion order; the list comes out in path order. */
  method FillSlots<R>(outcomes: seq<R>, completed: seq<nat>) returns (results: array<Option<R>>)
    requires forall k :: 0 <= k < |completed| ==> completed[k] < |outcomes|
    requires forall i :: 0 <= i < |outcomes| ==> i in completed
    ensures fresh(results) && results.Length == |outcomes|
    ensures forall i :: 0 <= i < |outcomes| ==> results[i] == Some(outcomes[i])
  {
    results := new Option<R>[|outcomes|](i => None);
    for k := 0 to |completed|
      invariant forall i :: 0 <= i < |outcomes| && i in completed[..k] ==> results[i] == Some(outcomes[i])
    {
      assert completed[..k + 1] == completed[..k] + [completed[k]];
      results[completed[k]] := Some(outcomes[completed[k]]);
    }
    assert completed[..|completed|] == completed;
  }
}
