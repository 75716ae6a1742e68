/**
 * The download scheduler (src-tauri/src/download/manager.rs): one sequential
 * actor owning a FIFO queue of row ids, the set of ids with a running task, the
 * per-id overrides, the pause flag and the parallelism bound.
 *
 * Writing a row's status (`set_status`) is an outside effect that may fail; each
 * operation receives the ids whose write fails in that step. Running a job is
 * not modelled: starting a task records the id and the overrides it takes.
 */
module Manager {
  import opened Common

  /** Per-download choices that take precedence over the row and the settings. */
  datatype DownloadOverrides = DownloadOverrides(forceAudio: Option<bool>, flatDestination: bool)

  /** The commands the actor receives. `RefreshSettings` carries the freshly loaded parallelism setting. */
  datatype Command =
    | Enqueue(ids: seq<int>)
    | MoveToBacklog(ids: seq<int>)
    | Cancel(id: int)
    | StartNow(id: int, overrides: Option<DownloadOverrides>)
    | RefreshSettings(parallelDownloads: int)
    | SetPaused(next: bool)
    | TaskFinished(id: int)

  /** A started download task: its row id and the overrides it was handed. */
  datatype Job = Job(id: int, overrides: Option<DownloadOverrides>)

  predicate Distinct(xs: seq<int>) {
    forall i, j :: 0 <= i < j < |xs| ==> xs[i] != xs[j]
  }

  /** `n.max(1)`. */
  function AtLeastOne(n: int): (m: int)
    ensures m >= 1
    ensures n >= 1 ==> m == n
    ensures n < 1 ==> m == 1
  {
    if n < 1 then 1 else n
  }

  /** The ids of a list of jobs, in order. */
  function JobIds(jobs: seq<Job>): (ids: seq<int>)
    ensures |ids| == |jobs|
    ensures forall k :: 0 <= k < |jobs| ==> ids[k] == jobs[k].id
  {
    if jobs == [] then [] else [jobs[0].id] + JobIds(jobs[1..])
  }

  /** `q` with every element of `s` removed, the rest in order: `retain(|x| x ∉ s)`. */
  function Without(q: seq<int>, s: set<int>): (r: seq<int>)
    ensures |r| <= |q|
    ensures forall x :: x in r <==> x in q && x !in s
  {
    if q == [] then [] else (if q[0] in s then [] else [q[0]]) + Without(q[1..], s)
  }

  /** Removing from a duplicate-free queue leaves it duplicate-free. */
  lemma {:induction false} WithoutDistinct(q: seq<int>, s: set<int>)
    requires Distinct(q)
    ensures Distinct(Without(q, s))
  {
    if q != [] {
      WithoutDistinct(q[1..], s);
      assert q[0] !in q[1..];
    }
  }

  /** Removing one set after another is removing their union. */
  lemma {:induction false} WithoutTwice(q: seq<int>, s: set<int>, t: set<int>)
    ensures Without(Without(q, s), t) == Without(q, s + t)
  {
    if q != [] {
      WithoutTwice(q[1..], s, t);
      var head := if q[0] in s then [] else [q[0]];
      WithoutAppend(head, Without(q[1..], s), t);
    }
  }

  lemma {:induction false} WithoutAppend(a: seq<int>, b: seq<int>, s: set<int>)
    ensures Without(a + b, s) == Without(a, s) + Without(b, s)
  {
    if a != [] {
      assert (a + b)[1..] == a[1..] + b;
      WithoutAppend(a[1..], b, s);
    } else {
      assert a + b == b;
    }
  }

  /** Removing nothing changes nothing. */
  lemma {:induction false} WithoutEmpty(q: seq<int>)
    ensures Without(q, {}) == q
  {
    if q != [] {
      WithoutEmpty(q[1..]);
      assert q == [q[0]] + q[1..];
    }
  }

  /**
   * The ids `enqueue_ids` appends, in order: an id is skipped when it is active,
   * already queued (before or during this call), or its status write fails.
   */
  function Admitted(ids: seq<int>, queue: seq<int>, active: set<int>, fails: set<int>): (r: seq<int>)
    ensures Distinct(r)
    ensures forall x :: x in r <==> x in ids && x !in queue && x !in active && x !in fails
  {
    if ids == [] then []
    else
      var front := Admitted(ids[..|ids| - 1], queue, active, fails);
      var x := ids[|ids| - 1];
      assert ids == ids[..|ids| - 1] + [x];
      if x !in active && x !in queue && x !in front && x !in fails then front + [x] else front
  }

  /** With no failures and nothing queued or active, every distinct id is admitted in the given order. */
  lemma {:induction false} AdmittedAll(ids: seq<int>, queue: seq<int>, active: set<int>, fails: set<int>)
    requires Distinct(ids)
    requires forall x :: x in ids ==> x !in queue && x !in active && x !in fails
    ensures Admitted(ids, queue, active, fails) == ids
  {
    if ids != [] {
      var front := ids[..|ids| - 1];
      AdmittedAll(front, queue, active, fails);
      assert ids[|ids| - 1] !in front;
      assert ids == front + [ids[|ids| - 1]];
    }
  }


  /** Two duplicate-free lists with nothing in common join into a duplicate-free list. */
  lemma DistinctAppend(a: seq<int>, b: seq<int>)
    requires Distinct(a) && Distinct(b)
    requires forall x :: x in b ==> x !in a
    ensures Distinct(a + b)
  {
    forall i, j | 0 <= i < j < |a + b|
      ensures (a + b)[i] != (a + b)[j]
    {
      if j < |a| {
        assert (a + b)[i] == a[i] && (a + b)[j] == a[j];
      } else if i < |a| {
        assert (a + b)[i] == a[i] && (a + b)[j] == b[j - |a|];
        assert b[j - |a|] in b;
      } else {
        assert (a + b)[i] == b[i - |a|] && (a + b)[j] == b[j - |a|];
        assert b[i - |a|] != b[j - |a|];
      }
    }
  }

  /** The elements of a list of ids, as a set. */
  function IdSet(ids: seq<int>): (s: set<int>)
    ensures forall x :: x in s <==> x in ids
  {
    set x | x in ids
  }

  lemma IdSetSnoc(ids: seq<int>, x: int)
    ensures IdSet(ids + [x]) == IdSet(ids) + {x}
  {
  }

  /** The overrides a started task takes: the recorded entry for its id, if any. */
  function TakenOverrides(overrides: map<int, DownloadOverrides>, id: int): Option<DownloadOverrides> {
    if id in overrides then Some(overrides[id]) else None
  }

  /** The scheduler state a start pass leaves, with the tasks it started in order. */
  datatype StartState = StartState(queue: seq<int>, active: set<int>, overrides: map<int, DownloadOverrides>, started: seq<Job>)

  /**
   * The start pass of `maybe_start_next`: while fewer than `maxParallel` tasks
   * run, take the front id; skip it when already active or when its status write
   * fails, else start it with the overrides recorded for it.
   */
  function StartPass(queue: seq<int>, active: set<int>, overrides: map<int, DownloadOverrides>, maxParallel: int, fails: set<int>): (r: StartState)
    ensures |r.queue| <= |queue| && r.queue == queue[|queue| - |r.queue|..]
    decreases |queue|
  {
    if |active| >= maxParallel || queue == [] then StartState(queue, active, overrides, [])
    else
      var id := queue[0];
      if id in active || id in fails then StartPass(queue[1..], active, overrides, maxParallel, fails)
      else
        var rest := StartPass(queue[1..], active + {id}, overrides - {id}, maxParallel, fails);
        rest.(started := [Job(id, TakenOverrides(overrides, id))] + rest.started)
  }

  /** The pass stops only when the queue is empty or the bound is reached, and never grows the running set past the bound. */
  lemma {:induction false} StartPassBound(queue: seq<int>, active: set<int>, overrides: map<int, DownloadOverrides>, maxParallel: int, fails: set<int>)
    ensures var r := StartPass(queue, active, overrides, maxParallel, fails);
      && (r.queue == [] || |r.active| >= maxParallel)
      && (|r.active| <= maxParallel || r.active == active)
    decreases |queue|
  {
    if !(|active| >= maxParallel || queue == []) {
      var id := queue[0];
      if id in active || id in fails {
        StartPassBound(queue[1..], active, overrides, maxParallel, fails);
      } else {
        StartPassBound(queue[1..], active + {id}, overrides - {id}, maxParallel, fails);
      }
    }
  }

  /** The running set grows by exactly the started ids, each taken from the queue, not running before, with a successful status write. */
  lemma {:induction false} StartPassStarted(queue: seq<int>, active: set<int>, overrides: map<int, DownloadOverrides>, maxParallel: int, fails: set<int>)
    ensures var r := StartPass(queue, active, overrides, maxParallel, fails);
      && (forall x :: x in r.active <==> x in active || x in JobIds(r.started))
      && (forall x :: x in JobIds(r.started) ==> x in queue && x !in active && x !in fails)
    decreases |queue|
  {
    var r := StartPass(queue, active, overrides, maxParallel, fails);
    if !(|active| >= maxParallel || queue == []) {
      var id := queue[0];
      if id in active || id in fails {
        StartPassStarted(queue[1..], active, overrides, maxParallel, fails);
      } else {
        StartPassStarted(queue[1..], active + {id}, overrides - {id}, maxParallel, fails);
        var rest := StartPass(queue[1..], active + {id}, overrides - {id}, maxParallel, fails);
        assert JobIds(r.started) == [id] + JobIds(rest.started);
      }
    }
  }

  /** `overrides.remove(id)` for each id in turn. */
  function RemoveIds(m: map<int, DownloadOverrides>, ids: seq<int>): (r: map<int, DownloadOverrides>)
    ensures forall x :: x in r <==> x in m && x !in ids
    ensures forall x :: x in r ==> r[x] == m[x]
  {
    if ids == [] then m else RemoveIds(m - {ids[0]}, ids[1..])
  }

  /** Starting a task consumes its overrides entry; every other entry stays. */
  lemma {:induction false} StartPassOverrides(queue: seq<int>, active: set<int>, overrides: map<int, DownloadOverrides>, maxParallel: int, fails: set<int>)
    ensures var r := StartPass(queue, active, overrides, maxParallel, fails);
      r.overrides == RemoveIds(overrides, JobIds(r.started))
    decreases |queue|
  {
    if !(|active| >= maxParallel || queue == []) {
      var id := queue[0];
      if id in active || id in fails {
        StartPassOverrides(queue[1..], active, overrides, maxParallel, fails);
      } else {
        StartPassOverrides(queue[1..], active + {id}, overrides - {id}, maxParallel, fails);
        StartedStep(queue, active, overrides, maxParallel, fails);
        var rest := StartPass(queue[1..], active + {id}, overrides - {id}, maxParallel, fails);
        assert ([id] + JobIds(rest.started))[1..] == JobIds(rest.started);
      }
    }
  }

  /** One skip of the pass: the front id is dropped and nothing else changes. */
  lemma SkippedStep(queue: seq<int>, active: set<int>, overrides: map<int, DownloadOverrides>, maxParallel: int, fails: set<int>)
    requires |active| < maxParallel && queue != [] && (queue[0] in active || queue[0] in fails)
    ensures StartPass(queue, active, overrides, maxParallel, fails) == StartPass(queue[1..], active, overrides, maxParallel, fails)
  {
  }

  /** One start of the pass: the front id is started and the rest of the pass follows. */
  lemma StartedStep(queue: seq<int>, active: set<int>, overrides: map<int, DownloadOverrides>, maxParallel: int, fails: set<int>)
    requires |active| < maxParallel && queue != [] && queue[0] !in active && queue[0] !in fails
    ensures var r := StartPass(queue, active, overrides, maxParallel, fails);
      var rest := StartPass(queue[1..], active + {queue[0]}, overrides - {queue[0]}, maxParallel, fails);
      r == rest.(started := [Job(queue[0], TakenOverrides(overrides, queue[0]))] + rest.started)
      && JobIds(r.started) == [queue[0]] + JobIds(rest.started)
  {
    var rest := StartPass(queue[1..], active + {queue[0]}, overrides - {queue[0]}, maxParallel, fails);
    var started := [Job(queue[0], TakenOverrides(overrides, queue[0]))] + rest.started;
    assert started[1..] == rest.started;
  }

  /**
   * FIFO order: the started ids, followed by the remaining queue without the
   * failing ids, are the queue without the failing ids. So the started ids are
   * exactly the taken ids whose status write succeeds, in queue order, when the
   * queue is disjoint from the running tasks.
   */
  lemma {:induction false} StartPassFifo(queue: seq<int>, active: set<int>, overrides: map<int, DownloadOverrides>, maxParallel: int, fails: set<int>)
    requires Distinct(queue) && forall x :: x in queue ==> x !in active
    ensures var r := StartPass(queue, active, overrides, maxParallel, fails);
      Without(queue, fails) == JobIds(r.started) + Without(r.queue, fails)
    decreases |queue|
  {
    if |active| >= maxParallel || queue == [] {
      assert JobIds([]) == [];
    } else {
      var id := queue[0];
      var tail := queue[1..];
      DistinctTail(queue);
      if id in fails {
        StartPassFifo(tail, active, overrides, maxParallel, fails);
        SkippedStep(queue, active, overrides, maxParallel, fails);
      } else {
        assert id in queue;
        StartPassFifo(tail, active + {id}, overrides - {id}, maxParallel, fails);
        StartedStep(queue, active, overrides, maxParallel, fails);
        var rest := StartPass(tail, active + {id}, overrides - {id}, maxParallel, fails);
        WithoutConsJoin(queue, fails, JobIds(rest.started), Without(rest.queue, fails));
      }
    }
  }

  lemma DistinctTail(q: seq<int>)
    requires Distinct(q) && q != []
    ensures Distinct(q[1..]) && q[0] !in q[1..]
  {
  }

  /** A kept front id goes in front of whatever the rest of the queue splits into. */
  lemma WithoutConsJoin(q: seq<int>, fails: set<int>, a: seq<int>, b: seq<int>)
    requires q != [] && q[0] !in fails && Without(q[1..], fails) == a + b
    ensures Without(q, fails) == ([q[0]] + a) + b
  {
    assert [q[0]] + (a + b) == ([q[0]] + a) + b;
  }

  /** On a duplicate-free queue every started task gets the overrides recorded for its id before the pass. */
  lemma {:induction false} StartPassTaken(queue: seq<int>, active: set<int>, overrides: map<int, DownloadOverrides>, maxParallel: int, fails: set<int>)
    requires Distinct(queue)
    ensures var r := StartPass(queue, active, overrides, maxParallel, fails);
      forall k :: 0 <= k < |r.started| ==> r.started[k].overrides == TakenOverrides(overrides, r.started[k].id)
    decreases |queue|
  {
    if !(|active| >= maxParallel || queue == []) {
      var id := queue[0];
      var tail := queue[1..];
      if id in active || id in fails {
        StartPassTaken(tail, active, overrides, maxParallel, fails);
        SkippedStep(queue, active, overrides, maxParallel, fails);
      } else {
        assert id in queue && id !in tail;
        StartPassTaken(tail, active + {id}, overrides - {id}, maxParallel, fails);
        StartPassStarted(tail, active + {id}, overrides - {id}, maxParallel, fails);
        StartedStep(queue, active, overrides, maxParallel, fails);
        var rest := StartPass(tail, active + {id}, overrides - {id}, maxParallel, fails);
        forall k | 0 <= k < |rest.started|
          ensures rest.started[k].overrides == TakenOverrides(overrides, rest.started[k].id)
        {
          assert JobIds(rest.started)[k] == rest.started[k].id;
        }
        var r := StartPass(queue, active, overrides, maxParallel, fails);
        forall k | 1 <= k < |r.started|
          ensures r.started[k] == rest.started[k - 1]
        {
        }
      }
    }
  }

  /** Nothing occurs in both halves of a duplicate-free concatenation. */
  lemma DistinctHalves(a: seq<int>, b: seq<int>)
    requires Distinct(a + b)
    ensures forall x :: x in a ==> x !in b
  {
    forall i, j | 0 <= i < |a| && 0 <= j < |b|
      ensures a[i] != b[j]
    {
      assert (a + b)[i] == a[i] && (a + b)[|a| + j] == b[j];
    }
  }

  /** The pass keeps the queue duplicate-free and disjoint from the running tasks. */
  lemma StartPassValid(queue: seq<int>, active: set<int>, overrides: map<int, DownloadOverrides>, maxParallel: int, fails: set<int>)
    ensures (Distinct(queue) && forall x :: x in queue ==> x !in active) ==>
      var r := StartPass(queue, active, overrides, maxParallel, fails);
      Distinct(r.queue) && forall x :: x in r.queue ==> x !in r.active
  {
    if !(Distinct(queue) && forall x :: x in queue ==> x !in active) {
      return;
    }
    var r := StartPass(queue, active, overrides, maxParallel, fails);
    StartPassFifo(queue, active, overrides, maxParallel, fails);
    StartPassStarted(queue, active, overrides, maxParallel, fails);
    WithoutDistinct(queue, fails);
    DistinctHalves(JobIds(r.started), Without(r.queue, fails));
    DistinctSuffix(queue, |queue| - |r.queue|);
  }

  /** A suffix of a duplicate-free queue is duplicate-free and holds only queue elements. */
  lemma DistinctSuffix(q: seq<int>, n: nat)
    requires Distinct(q) && n <= |q|
    ensures Distinct(q[n..]) && forall x :: x in q[n..] ==> x in q
  {
    forall x | x in q[n..]
      ensures x in q
    {
      var j :| 0 <= j < |q[n..]| && q[n..][j] == x;
      assert q[n + j] == x;
    }
  }

  /** An id neither queued nor running stays out of the queue and the running set after a pass, and gains no overrides entry. */
  lemma StartPassAbsent(queue: seq<int>, active: set<int>, overrides: map<int, DownloadOverrides>, maxParallel: int, fails: set<int>, x: int)
    requires x !in queue && x !in active
    ensures var r := StartPass(queue, active, overrides, maxParallel, fails);
      x !in r.queue && x !in r.active && (x in r.overrides ==> x in overrides)
  {
    StartPassStarted(queue, active, overrides, maxParallel, fails);
    StartPassOverrides(queue, active, overrides, maxParallel, fails);
  }

  /** A recorded override survives a pass unless its task started, in which case the task carries it. */
  lemma StartPassOverrideKept(queue: seq<int>, active: set<int>, overrides: map<int, DownloadOverrides>, maxParallel: int, fails: set<int>, x: int)
    requires Distinct(queue) && x in overrides
    ensures var r := StartPass(queue, active, overrides, maxParallel, fails);
      (x in r.overrides && r.overrides[x] == overrides[x]) || Job(x, Some(overrides[x])) in r.started
  {
    var r := StartPass(queue, active, overrides, maxParallel, fails);
    StartPassOverrides(queue, active, overrides, maxParallel, fails);
    StartPassTaken(queue, active, overrides, maxParallel, fails);
    if x in JobIds(r.started) {
      var k :| 0 <= k < |r.started| && JobIds(r.started)[k] == x;
      assert r.started[k] == Job(x, Some(overrides[x]));
    }
  }

  /** Mid-pass: `started` so far followed by the rest of the pass from the current state is the whole pass `goal`. */
  predicate Resumes(queue: seq<int>, active: set<int>, overrides: map<int, DownloadOverrides>, started: seq<Job>, goal: StartState, maxParallel: int, fails: set<int>) {
    var r := StartPass(queue, active, overrides, maxParallel, fails);
    r.queue == goal.queue && r.active == goal.active && r.overrides == goal.overrides && started + r.started == goal.started
  }

  lemma ResumesSkip(queue: seq<int>, active: set<int>, overrides: map<int, DownloadOverrides>, started: seq<Job>, goal: StartState, maxParallel: int, fails: set<int>)
    requires Resumes(queue, active, overrides, started, goal, maxParallel, fails)
    requires |active| < maxParallel && queue != [] && (queue[0] in active || queue[0] in fails)
    ensures Resumes(queue[1..], active, overrides, started, goal, maxParallel, fails)
  {
    SkippedStep(queue, active, overrides, maxParallel, fails);
  }

  lemma ResumesStart(queue: seq<int>, active: set<int>, overrides: map<int, DownloadOverrides>, started: seq<Job>, goal: StartState, maxParallel: int, fails: set<int>)
    requires Resumes(queue, active, overrides, started, goal, maxParallel, fails)
    requires |active| < maxParallel && queue != [] && queue[0] !in active && queue[0] !in fails
    ensures Resumes(queue[1..], active + {queue[0]}, overrides - {queue[0]},
      started + [Job(queue[0], TakenOverrides(overrides, queue[0]))], goal, maxParallel, fails)
  {
    var r := StartPass(queue, active, overrides, maxParallel, fails);
    var rest := StartPass(queue[1..], active + {queue[0]}, overrides - {queue[0]}, maxParallel, fails);
    var job := Job(queue[0], TakenOverrides(overrides, queue[0]));
    StartedStep(queue, active, overrides, maxParallel, fails);
    assert r.queue == rest.queue && r.active == rest.active && r.overrides == rest.overrides;
    assert r.started == [job] + rest.started;
    assert started + r.started == goal.started;
    JobsAssoc(started, [job], rest.started);
    assert (started + [job]) + rest.started == goal.started;
  }

  lemma ResumesDone(queue: seq<int>, active: set<int>, overrides: map<int, DownloadOverrides>, started: seq<Job>, goal: StartState, maxParallel: int, fails: set<int>)
    requires Resumes(queue, active, overrides, started, goal, maxParallel, fails)
    requires |active| >= maxParallel || queue == []
    ensures StartState(queue, active, overrides, started) == goal
  {
    assert started + [] == started;
  }

  /** The actor's state: the queue, the running ids, the per-id overrides, the pause flag and the parallelism bound. */
  datatype ActorState = ActorState(queue: seq<int>, active: set<int>, overrides: map<int, DownloadOverrides>, paused: bool, maxParallel: int)

  /** No id is queued twice, no queued id is running, and the parallelism bound is positive. */
  predicate ValidState(s: ActorState) {
    s.maxParallel >= 1 && Distinct(s.queue) && forall x :: x in s.queue ==> x !in s.active
  }

  /** Appending fresh distinct ids to a duplicate-free queue keeps it duplicate-free. */
  lemma AppendFresh(q: seq<int>, a: seq<int>)
    ensures Distinct(q) && Distinct(a) && (forall x :: x in a ==> x !in q) ==> Distinct(q + a)
  {
    if Distinct(q) && Distinct(a) && (forall x :: x in a ==> x !in q) {
      DistinctAppend(q, a);
    }
  }

  /** Removing ids from a duplicate-free queue keeps it duplicate-free. */
  lemma RemoveKeepsDistinct(q: seq<int>, s: set<int>)
    ensures Distinct(q) ==> Distinct(Without(q, s))
  {
    if Distinct(q) {
      WithoutDistinct(q, s);
    }
  }

  /**
   * The command-specific step of `run_download_manager`, before the start pass.
   * `queueFails` are the ids whose `queued` status write fails.
   */
  function Dispatched(s: ActorState, cmd: Command, queueFails: set<int>): (t: ActorState)
    ensures ValidState(s) ==> ValidState(t)
    ensures t.maxParallel == if cmd.RefreshSettings? then AtLeastOne(cmd.parallelDownloads) else s.maxParallel
    ensures t.paused == if cmd.SetPaused? then cmd.next else s.paused
    ensures cmd.Enqueue? || cmd.StartNow? ==> s.queue <= t.queue
    ensures cmd.Enqueue? ==> forall x :: x in cmd.ids ==> x in t.queue || x in s.active || x in queueFails
    ensures cmd.StartNow? ==> cmd.id in t.queue || cmd.id in s.active || cmd.id in queueFails
    ensures cmd.StartNow? && cmd.overrides.Some? ==> cmd.id in t.overrides && t.overrides[cmd.id] == cmd.overrides.value
    ensures cmd.MoveToBacklog? ==> forall x :: x in cmd.ids ==> x !in t.queue && x !in t.active && x !in t.overrides
    ensures cmd.Cancel? ==> cmd.id !in t.queue && cmd.id !in t.active && cmd.id !in t.overrides
    ensures cmd.TaskFinished? ==> cmd.id !in t.active
    ensures forall x :: x in s.queue && !(cmd.MoveToBacklog? && x in cmd.ids) && !(cmd.Cancel? && x == cmd.id) ==> x in t.queue
  {
    match cmd
    case Enqueue(ids) =>
      var added := Admitted(ids, s.queue, s.active, queueFails);
      AppendFresh(s.queue, added);
      s.(queue := s.queue + added)
    case MoveToBacklog(ids) =>
      RemoveKeepsDistinct(s.queue, IdSet(ids));
      s.(queue := Without(s.queue, IdSet(ids)), active := s.active - IdSet(ids), overrides := s.overrides - IdSet(ids))
    case Cancel(id) =>
      RemoveKeepsDistinct(s.queue, {id});
      s.(queue := Without(s.queue, {id}), active := s.active - {id}, overrides := s.overrides - {id})
    case StartNow(id, ov) =>
      var added := Admitted([id], s.queue, s.active, queueFails);
      AppendFresh(s.queue, added);
      s.(queue := s.queue + added, overrides := if ov.Some? then s.overrides[id := ov.value] else s.overrides)
    case RefreshSettings(p) => s.(maxParallel := AtLeastOne(p))
    case SetPaused(next) => s.(paused := next)
    case TaskFinished(id) => s.(active := s.active - {id})
  }

  /**
   * One command of `run_download_manager`: its own step, then `maybe_start_next`,
   * forced for `StartNow`. `startFails` are the ids whose `downloading` status
   * write fails. The result is the new state and the tasks started, in order.
   */
  function Step(s: ActorState, cmd: Command, queueFails: set<int>, startFails: set<int>): (r: (ActorState, seq<Job>))
    ensures ValidState(s) ==> ValidState(r.0)
    ensures r.0.paused == (if cmd.SetPaused? then cmd.next else s.paused)
    ensures r.0.maxParallel == (if cmd.RefreshSettings? then AtLeastOne(cmd.parallelDownloads) else s.maxParallel)
    ensures r.0.paused && !cmd.StartNow? ==> r.1 == [] && r.0 == Dispatched(s, cmd, queueFails)
  {
    var d := Dispatched(s, cmd, queueFails);
    if d.paused && !cmd.StartNow? then (d, [])
    else
      var p := StartPass(d.queue, d.active, d.overrides, d.maxParallel, startFails);
      StartPassValid(d.queue, d.active, d.overrides, d.maxParallel, startFails);
      (ActorState(p.queue, p.active, p.overrides, d.paused, d.maxParallel), p.started)
  }

  /** What a command leaves behind once its start pass has run. */
  lemma StepEffects(s: ActorState, cmd: Command, queueFails: set<int>, startFails: set<int>)
    requires ValidState(s)
    ensures cmd.MoveToBacklog? ==> forall x :: x in cmd.ids ==>
      x !in Step(s, cmd, queueFails, startFails).0.queue && x !in Step(s, cmd, queueFails, startFails).0.active
      && x !in Step(s, cmd, queueFails, startFails).0.overrides
    ensures cmd.Cancel? ==>
      && cmd.id !in Step(s, cmd, queueFails, startFails).0.queue
      && cmd.id !in Step(s, cmd, queueFails, startFails).0.active
      && cmd.id !in Step(s, cmd, queueFails, startFails).0.overrides
    ensures cmd.TaskFinished? && cmd.id !in s.queue ==> cmd.id !in Step(s, cmd, queueFails, startFails).0.active
    ensures cmd.StartNow? && cmd.overrides.Some? ==>
      (cmd.id in Step(s, cmd, queueFails, startFails).0.overrides
        && Step(s, cmd, queueFails, startFails).0.overrides[cmd.id] == cmd.overrides.value)
      || Job(cmd.id, cmd.overrides) in Step(s, cmd, queueFails, startFails).1
  {
    var d := Dispatched(s, cmd, queueFails);
    if !(d.paused && !cmd.StartNow?) {
      if cmd.MoveToBacklog? {
        forall x | x in cmd.ids
          ensures x !in Step(s, cmd, queueFails, startFails).0.queue && x !in Step(s, cmd, queueFails, startFails).0.active
            && x !in Step(s, cmd, queueFails, startFails).0.overrides
        {
          StartPassAbsent(d.queue, d.active, d.overrides, d.maxParallel, startFails, x);
        }
      }
      if cmd.Cancel? || (cmd.TaskFinished? && cmd.id !in s.queue) {
        StartPassAbsent(d.queue, d.active, d.overrides, d.maxParallel, startFails, cmd.id);
      }
      if cmd.StartNow? && cmd.overrides.Some? {
        StartPassOverrideKept(d.queue, d.active, d.overrides, d.maxParallel, startFails, cmd.id);
      }
    }
  }

  /** `run_download_manager` over a finite stream of commands: the final state and every task started, in order. */
  function RunFrom(s: ActorState, cmds: seq<Command>, queueFails: set<int>, startFails: set<int>): (r: (ActorState, seq<Job>))
    ensures ValidState(s) ==> ValidState(r.0)
    decreases |cmds|
  {
    if cmds == [] then (s, [])
    else
      var prev := RunFrom(s, cmds[..|cmds| - 1], queueFails, startFails);
      var next := Step(prev.0, cmds[|cmds| - 1], queueFails, startFails);
      (next.0, prev.1 + next.1)
  }

  /** One more command after a run is one more step. */
  lemma RunFromSnoc(s: ActorState, cmds: seq<Command>, cmd: Command, queueFails: set<int>, startFails: set<int>)
    ensures RunFrom(s, cmds + [cmd], queueFails, startFails).0
      == Step(RunFrom(s, cmds, queueFails, startFails).0, cmd, queueFails, startFails).0
    ensures RunFrom(s, cmds + [cmd], queueFails, startFails).1
      == RunFrom(s, cmds, queueFails, startFails).1 + Step(RunFrom(s, cmds, queueFails, startFails).0, cmd, queueFails, startFails).1
  {
    assert (cmds + [cmd])[..|cmds|] == cmds;
  }

  /** Handing the actor the commands in two batches leaves it in the same state as handing it them all at once. */
  lemma {:induction false} RunFromAppendState(s: ActorState, a: seq<Command>, b: seq<Command>, queueFails: set<int>, startFails: set<int>)
    ensures RunFrom(s, a + b, queueFails, startFails).0 == RunFrom(RunFrom(s, a, queueFails, startFails).0, b, queueFails, startFails).0
    decreases |b|
  {
    if b == [] {
      assert a + b == a;
    } else {
      var front, last := b[..|b| - 1], b[|b| - 1];
      assert b == front + [last];
      assert a + b == (a + front) + [last];
      RunFromAppendState(s, a, front, queueFails, startFails);
      RunFromSnoc(s, a + front, last, queueFails, startFails);
      RunFromSnoc(RunFrom(s, a, queueFails, startFails).0, front, last, queueFails, startFails);
    }
  }

  /** Handing the actor the commands in two batches starts the same tasks, in the same order, as handing it them all at once. */
  lemma {:induction false} RunFromAppend(s: ActorState, a: seq<Command>, b: seq<Command>, queueFails: set<int>, startFails: set<int>)
    ensures RunFrom(s, a + b, queueFails, startFails).1
      == RunFrom(s, a, queueFails, startFails).1 + RunFrom(RunFrom(s, a, queueFails, startFails).0, b, queueFails, startFails).1
    decreases |b|
  {
    if b == [] {
      assert a + b == a;
    } else {
      var front, last := b[..|b| - 1], b[|b| - 1];
      assert b == front + [last];
      assert a + b == (a + front) + [last];
      var mid := RunFrom(s, a, queueFails, startFails).0;
      var j0 := RunFrom(s, a, queueFails, startFails).1;
      var j1 := RunFrom(mid, front, queueFails, startFails).1;
      var j2 := Step(RunFrom(mid, front, queueFails, startFails).0, last, queueFails, startFails).1;
      assert RunFrom(s, a + b, queueFails, startFails).1 == (j0 + j1) + j2 by {
        RunFromAppend(s, a, front, queueFails, startFails);
        RunFromAppendState(s, a, front, queueFails, startFails);
        RunFromSnoc(s, a + front, last, queueFails, startFails);
      }
      assert RunFrom(mid, b, queueFails, startFails).1 == j1 + j2 by {
        RunFromSnoc(mid, front, last, queueFails, startFails);
      }
      JobsAssoc(j0, j1, j2);
    }
  }

  /** Concatenating started-task lists is associative. */
  lemma JobsAssoc(x: seq<Job>, y: seq<Job>, z: seq<Job>)
    ensures (x + y) + z == x + (y + z)
  {
  }

  /** A paused actor starts nothing until it is unpaused or told to start a download now. */
  lemma {:induction false} PausedStartsNothing(s: ActorState, cmds: seq<Command>, queueFails: set<int>, startFails: set<int>)
    requires s.paused
    requires forall k :: 0 <= k < |cmds| ==> !cmds[k].StartNow? && !(cmds[k].SetPaused? && !cmds[k].next)
    ensures RunFrom(s, cmds, queueFails, startFails).0.paused
    ensures RunFrom(s, cmds, queueFails, startFails).1 == []
    decreases |cmds|
  {
    if cmds != [] {
      var front := cmds[..|cmds| - 1];
      PausedStartsNothing(s, front, queueFails, startFails);
    }
  }

  class DownloadManager {
    var queue: seq<int>
    var active: set<int>
    var overrides: map<int, DownloadOverrides>
    var paused: bool
    var maxParallel: int

    /** The actor's state as a value. */
    function State(): ActorState
      reads this
    {
      ActorState(queue, active, overrides, paused, maxParallel)
    }

    predicate Valid()
      reads this
    {
      ValidState(State())
    }

    /** The actor's start: empty state, paused unless downloads start automatically. */
    constructor(downloadAutomatically: bool, parallelDownloads: int)
      ensures Valid()
      ensures queue == [] && active == {} && overrides == map[]
      ensures paused == !downloadAutomatically && maxParallel == AtLeastOne(parallelDownloads)
    {
      queue := [];
      active := {};
      overrides := map[];
      paused := !downloadAutomatically;
      maxParallel := AtLeastOne(parallelDownloads);
    }

    /** `enqueue_ids`: append each id that is neither active nor queued and whose status write succeeds. */
    method EnqueueIds(ids: seq<int>, fails: set<int>)
      requires Valid()
      modifies this
      ensures Valid()
      ensures queue == old(queue) + Admitted(ids, old(queue), active, fails)
      ensures active == old(active) && overrides == old(overrides)
      ensures paused == old(paused) && maxParallel == old(maxParallel)
    {
      var i := 0;
      while i < |ids|
        invariant 0 <= i <= |ids|
        invariant queue == old(queue) + Admitted(ids[..i], old(queue), active, fails)
        invariant active == old(active) && overrides == old(overrides)
        invariant paused == old(paused) && maxParallel == old(maxParallel)
      {
        var id := ids[i];
        assert ids[..i + 1][..i] == ids[..i];
        if id !in active && id !in queue {
          var written := id !in fails;
          if written {
            queue := queue + [id];
          }
        }
        i := i + 1;
      }
      assert ids[..|ids|] == ids;
      DistinctAppend(old(queue), Admitted(ids, old(queue), active, fails));
    }

    /** `move_to_backlog`: each id leaves the queue, its running task and its overrides. */
    method MoveIdsToBacklog(ids: seq<int>)
      requires Valid()
      modifies this
      ensures Valid()
      ensures queue == Without(old(queue), IdSet(ids))
      ensures active == old(active) - IdSet(ids) && overrides == old(overrides) - IdSet(ids)
      ensures paused == old(paused) && maxParallel == old(maxParallel)
    {
      var i := 0;
      WithoutEmpty(queue);
      assert IdSet(ids[..0]) == {};
      while i < |ids|
        invariant 0 <= i <= |ids|
        invariant queue == Without(old(queue), IdSet(ids[..i]))
        invariant active == old(active) - IdSet(ids[..i]) && overrides == old(overrides) - IdSet(ids[..i])
        invariant paused == old(paused) && maxParallel == old(maxParallel)
      {
        var id := ids[i];
        assert ids[..i + 1] == ids[..i] + [id];
        IdSetSnoc(ids[..i], id);
        WithoutTwice(old(queue), IdSet(ids[..i]), {id});
        queue := Without(queue, {id});
        active := active - {id};
        overrides := overrides - {id};
        i := i + 1;
      }
      assert ids[..|ids|] == ids;
      WithoutDistinct(old(queue), IdSet(ids));
    }

    /** `cancel_active`: the id leaves the queue, its overrides and its running task. */
    method CancelActive(id: int)
      requires Valid()
      modifies this
      ensures Valid()
      ensures queue == Without(old(queue), {id})
      ensures active == old(active) - {id} && overrides == old(overrides) - {id}
      ensures paused == old(paused) && maxParallel == old(maxParallel)
    {
      WithoutDistinct(queue, {id});
      queue := Without(queue, {id});
      overrides := overrides - {id};
      active := active - {id};
    }

    /**
     * `maybe_start_next`: nothing happens when paused and not forced; otherwise
     * the start pass runs on the current state.
     */
    method MaybeStartNext(force: bool, fails: set<int>) returns (started: seq<Job>)
      modifies this
      ensures paused == old(paused) && maxParallel == old(maxParallel)
      ensures old(paused) && !force ==>
        started == [] && queue == old(queue) && active == old(active) && overrides == old(overrides)
      ensures !(old(paused) && !force) ==>
        StartState(queue, active, overrides, started) == StartPass(old(queue), old(active), old(overrides), maxParallel, fails)
    {
      started := [];
      if paused && !force {
        return;
      }
      ghost var goal := StartPass(queue, active, overrides, maxParallel, fails);
      assert [] + goal.started == goal.started;
      while |active| < maxParallel
        invariant paused == old(paused) && maxParallel == old(maxParallel)
        invariant Resumes(queue, active, overrides, started, goal, maxParallel, fails)
        decreases |queue|
      {
        if queue == [] {
          break;
        }
        var id := queue[0];
        ghost var before := queue;
        queue := queue[1..];
        if id in active {
          ResumesSkip(before, active, overrides, started, goal, maxParallel, fails);
          continue;
        }
        var written := id !in fails;
        if !written {
          ResumesSkip(before, active, overrides, started, goal, maxParallel, fails);
          continue;
        }
        var opts := if id in overrides then Some(overrides[id]) else None;
        ResumesStart(before, active, overrides, started, goal, maxParallel, fails);
        overrides := overrides - {id};
        active := active + {id};
        started := started + [Job(id, opts)];
      }
      ResumesDone(queue, active, overrides, started, goal, maxParallel, fails);
    }

    /**
     * The command-specific step of `run_download_manager`, before the start pass;
     * `force` is set for `StartNow`.
     */
    method Dispatch(cmd: Command, queueFails: set<int>) returns (force: bool)
      requires Valid()
      modifies this
      ensures Valid()
      ensures force <==> cmd.StartNow?
      ensures State() == Dispatched(old(State()), cmd, queueFails)
    {
      force := false;
      match cmd {
        case Enqueue(ids) =>
          EnqueueIds(ids, queueFails);
        case MoveToBacklog(ids) =>
          MoveIdsToBacklog(ids);
        case Cancel(id) =>
          CancelActive(id);
        case StartNow(id, ov) =>
          if ov.Some? {
            overrides := overrides[id := ov.value];
          }
          EnqueueIds([id], queueFails);
          force := true;
        case RefreshSettings(p) =>
          maxParallel := AtLeastOne(p);
        case SetPaused(next) =>
          paused := next;
        case TaskFinished(id) =>
          active := active - {id};
      }
    }

    /**
     * One command of `run_download_manager`: its own step, then the start pass
     * (forced for `StartNow`). `queueFails` and `startFails` are the ids whose
     * status writes fail when queued and when started.
     */
    method HandleCommand(cmd: Command, queueFails: set<int>, startFails: set<int>) returns (started: seq<Job>)
      requires Valid()
      modifies this
      ensures Valid()
      ensures (State(), started) == Step(old(State()), cmd, queueFails, startFails)
    {
      ghost var s0 := State();
      var force := Dispatch(cmd, queueFails);
      ghost var d := State();
      started := MaybeStartNext(force, startFails);
      ghost var r := Step(s0, cmd, queueFails, startFails);
      if d.paused && !cmd.StartNow? {
        assert r == (d, []);
      } else {
        ghost var p := StartPass(d.queue, d.active, d.overrides, d.maxParallel, startFails);
        assert r == (ActorState(p.queue, p.active, p.overrides, d.paused, d.maxParallel), p.started);
        assert StartState(queue, active, overrides, started) == p;
      }
    }

    /** `run_download_manager`'s loop over a finite stream of commands. */
    method Run(cmds: seq<Command>, queueFails: set<int>, startFails: set<int>) returns (jobs: seq<Job>)
      requires Valid()
      modifies this
      ensures Valid()
      ensures (State(), jobs) == RunFrom(old(State()), cmds, queueFails, startFails)
    {
      jobs := [];
      var i := 0;
      while i < |cmds|
        invariant 0 <= i <= |cmds| && Valid()
        invariant (State(), jobs) == RunFrom(old(State()), cmds[..i], queueFails, startFails)
      {
        assert cmds[..i + 1][..i] == cmds[..i];
        var started := HandleCommand(cmds[i], queueFails, startFails);
        jobs := jobs + started;
        i := i + 1;
      }
      assert cmds[..|cmds|] == cmds;
    }
  }
}
