/**
 The download proxy's cache of one file (`dl_handle`, `dl_fetch_to_cache`): any number of requests, run by
 separate processes, interleave their steps on a lock file, a part file and the published file.  A
 process may die at any step; the operating system then releases its lock and leaves the files alone.
 */
module DownloadCache {
  import opened Options

  /** How the file is fetched: curl checks the length it was promised, a stream copy does not. */
  datatype Backend = Curl | StreamCopy

  /** Where a request is in its code. */
  datatype Phase =
    | Arrived                 // before the first look at the cache
    | WaitingForLock
    | Locked                  // before looking again
    | Fetching                // the part file is open for writing
    | Fetched(ok: bool)       // closed, with the outcome the transport reported
    | Unlocking(hit: bool)
    | ServingLocal
    | PassingThrough
    | Gone                    // answered, or died

  /** What is worth remembering of a run. */
  datatype Note = Started(p: nat) | Published(p: nat) | Served(p: nat, content: seq<nat>)

  datatype State = State(
    phase: map<nat, Phase>,
    lock: Option<nat>,
    part: Option<seq<nat>>,
    file: Option<seq<nat>>,
    log: seq<Note>)

  /** One file's world: the transport and the bytes the origin holds. */
  datatype World = World(backend: Backend, body: seq<nat>)

  /** A step of request p; the boolean or the bytes are what the environment decides. */
  datatype Event =
    | Arrive(p: nat)
    | Look(p: nat, dirUsable: bool)
    | TakeLock(p: nat)
    | LockFails(p: nat)
    | LookAgain(p: nat, partOpens: bool)
    | Write(p: nat, chunk: seq<nat>)
    | Finish(p: nat, reported: bool)
    | Publish(p: nat, renamed: bool)
    | Unlock(p: nat)
    | Serve(p: nat)
    | PassThrough(p: nat)
    | Die(p: nat)

  const INIT := State(map[], None, None, None, [])

  predicate Cached(s: State) { s.file.Some? && s.file.value != [] }

  predicate At(s: State, p: nat, phase: Phase) { p in s.phase && s.phase[p] == phase }

  function Goto(s: State, p: nat, phase: Phase): State { s.(phase := s.phase[p := phase]) }

  function Release(s: State, p: nat): State {
    if s.lock == Some(p) then s.(lock := None) else s
  }

  /** Whether the step can happen. */
  ghost predicate Enabled(w: World, s: State, e: Event) {
    match e
    case Arrive(p) => p !in s.phase
    case Look(p, _) => At(s, p, Arrived)
    case TakeLock(p) => At(s, p, WaitingForLock) && s.lock.None?
    case LockFails(p) => At(s, p, WaitingForLock)
    case LookAgain(p, _) => At(s, p, Locked)
    case Write(p, chunk) => At(s, p, Fetching) && s.part.Some? && s.part.value + chunk <= w.body
    // curl reports success only for the whole file; a stream copy may end early and report success.
    case Finish(p, reported) => At(s, p, Fetching) && (reported && w.backend.Curl? ==> s.part == Some(w.body))
    case Publish(p, _) => p in s.phase && s.phase[p].Fetched?
    case Unlock(p) => p in s.phase && s.phase[p].Unlocking?
    case Serve(p) => At(s, p, ServingLocal) && s.file.Some?
    case PassThrough(p) => At(s, p, PassingThrough)
    case Die(p) => p in s.phase && s.phase[p] != Gone
  }

  function Step(s: State, e: Event): State {
    match e
    case Arrive(p) => Goto(s, p, Arrived)
    case Look(p, dirUsable) =>
      Goto(s, p, if Cached(s) then ServingLocal else if dirUsable then WaitingForLock else PassingThrough)
    case TakeLock(p) => Goto(s, p, Locked).(lock := Some(p))
    case LockFails(p) => Goto(s, p, PassingThrough)
    case LookAgain(p, partOpens) =>
      if Cached(s) then Goto(s, p, Unlocking(true))
      else if partOpens then Goto(s, p, Fetching).(part := Some([]), log := s.log + [Started(p)])
      else Goto(s, p, Unlocking(false))
    case Write(p, chunk) => if s.part.Some? then s.(part := Some(s.part.value + chunk)) else s
    case Finish(p, reported) => Goto(s, p, Fetched(reported))
    case Publish(p, renamed) =>
      if p in s.phase && s.phase[p] == Fetched(true) && s.part.Some? && s.part.value != [] && renamed then
        Goto(s, p, Unlocking(true)).(file := s.part, part := None, log := s.log + [Published(p)])
      else
        Goto(s, p, Unlocking(false)).(part := None)
    case Unlock(p) =>
      Release(Goto(s, p, if p in s.phase && s.phase[p] == Unlocking(true) then ServingLocal else PassingThrough), p)
    case Serve(p) =>
      if s.file.Some? then Goto(s, p, Gone).(log := s.log + [Served(p, s.file.value)]) else s
    case PassThrough(p) => Goto(s, p, Gone)
    case Die(p) => Release(Goto(s, p, Gone), p)
  }

  /** The states reached along a run. */
  ghost predicate Runs(w: World, events: seq<Event>, s: State) {
    if events == [] then s == INIT
    else
      var before := events[..|events| - 1];
      exists t :: Runs(w, before, t) && Enabled(w, t, events[|events| - 1]) && s == Step(t, events[|events| - 1])
  }

  // ----- The invariant -----

  /** The phases in which a request holds the lock. */
  predicate InSection(phase: Phase) {
    phase.Locked? || phase.Fetching? || phase.Fetched? || phase.Unlocking?
  }

  ghost predicate Inv(w: World, s: State) {
    LockOk(s) && PhasesOk(w, s) && FileOk(w, s) && LogOk(s)
  }

  /** The lock is held by the request in the locked section, and by nobody else. */
  ghost predicate LockOk(s: State) {
    && (forall p :: p in s.phase && InSection(s.phase[p]) ==> s.lock == Some(p))
    && (s.lock.Some? ==> s.lock.value in s.phase && InSection(s.phase[s.lock.value]))
  }

  ghost predicate PhasesOk(w: World, s: State) {
    forall p :: p in s.phase ==> PhaseOk(w, s, s.phase[p])
  }

  ghost predicate FileOk(w: World, s: State) {
    s.file.Some? ==> s.file.value != [] && s.file.value <= w.body && (w.backend.Curl? ==> s.file.value == w.body)
  }

  ghost predicate PhaseOk(w: World, s: State, phase: Phase) {
    match phase
    case Fetching => s.file.None? && s.part.Some? && s.part.value <= w.body
    case Fetched(ok) =>
      s.file.None? && s.part.Some? && s.part.value <= w.body && (ok && w.backend.Curl? ==> s.part.value == w.body)
    case Unlocking(hit) => hit ==> s.file.Some?
    case ServingLocal => s.file.Some?
    case _ => true
  }

  /** Nothing is published or served while there is no file; afterwards see `OnePublication`. */
  ghost predicate LogOk(s: State) {
    match s.file
    case None => forall i :: 0 <= i < |s.log| ==> s.log[i].Started?
    case Some(content) => exists k :: OnePublication(s.log, k, content)
  }

  /** Entry k is the only publication, no fetch starts after it, and only its content is ever served. */
  ghost predicate OnePublication(log: seq<Note>, k: nat, content: seq<nat>) {
    && k < |log| && log[k].Published?
    && (forall i :: 0 <= i < k ==> log[i].Started?)
    && (forall i :: k < i < |log| ==> log[i].Served? && log[i].content == content)
  }

  lemma StepKeepsInv(w: World, s: State, e: Event)
    requires Inv(w, s) && Enabled(w, s, e)
    ensures Inv(w, Step(s, e))
  {
    StepKeepsLock(w, s, e);
    StepKeepsPhases(w, s, e);
    StepKeepsLog(w, s, e);
  }

  lemma StepKeepsLock(w: World, s: State, e: Event)
    requires LockOk(s) && Enabled(w, s, e)
    ensures LockOk(Step(s, e))
  {
  }

  lemma StepKeepsPhases(w: World, s: State, e: Event)
    requires LockOk(s) && PhasesOk(w, s) && FileOk(w, s) && Enabled(w, s, e)
    ensures PhasesOk(w, Step(s, e)) && FileOk(w, Step(s, e))
  {
  }

  lemma StepKeepsLog(w: World, s: State, e: Event)
    requires Inv(w, s) && Enabled(w, s, e)
    ensures LogOk(Step(s, e))
  {
    var t := Step(s, e);
    if s.file.Some? {
      var k :| OnePublication(s.log, k, s.file.value);
      assert OnePublication(t.log, k, s.file.value);
    } else if t.file.Some? {
      assert OnePublication(t.log, |s.log|, t.file.value);
    }
  }

  lemma {:induction false} RunKeepsInv(w: World, events: seq<Event>, s: State)
    requires Runs(w, events, s)
    ensures Inv(w, s)
  {
    if events != [] {
      var before := events[..|events| - 1];
      var t :| Runs(w, before, t) && Enabled(w, t, events[|events| - 1]) && s == Step(t, events[|events| - 1]);
      RunKeepsInv(w, before, t);
      StepKeepsInv(w, t, events[|events| - 1]);
    }
  }

  // ----- What holds in every run -----

  /** No two requests are ever inside the locked section, so at most one writes the part file. */
  lemma MutualExclusion(w: World, events: seq<Event>, s: State, p: nat, q: nat)
    requires Runs(w, events, s)
    requires p in s.phase && q in s.phase && InSection(s.phase[p]) && InSection(s.phase[q])
    ensures p == q
  {
    RunKeepsInv(w, events, s);
  }

  /** The lock is held exactly by the request inside: leaving the section, or dying in it, frees the lock. */
  lemma LockExact(w: World, events: seq<Event>, s: State, p: nat)
    requires Runs(w, events, s)
    ensures s.lock == Some(p) <==> p in s.phase && InSection(s.phase[p])
  {
    RunKeepsInv(w, events, s);
  }

  /** So while nobody is inside, whoever waits can take it. */
  lemma LockFree(w: World, events: seq<Event>, s: State, p: nat)
    requires Runs(w, events, s) && At(s, p, WaitingForLock) && forall q :: q in s.phase ==> !InSection(s.phase[q])
    ensures Enabled(w, s, TakeLock(p)) && InSection(Step(s, TakeLock(p)).phase[p])
  {
    RunKeepsInv(w, events, s);
  }

  /** Once the file is published every request that looks is sent to it, from the first look or the second. */
  lemma PublishedIsServed(w: World, events: seq<Event>, s: State, p: nat, flag: bool)
    requires Runs(w, events, s) && s.file.Some?
    ensures At(s, p, Arrived) ==> At(Step(s, Look(p, flag)), p, ServingLocal)
    ensures At(s, p, Locked) ==> At(Step(Step(s, LookAgain(p, flag)), Unlock(p)), p, ServingLocal)
    ensures At(s, p, ServingLocal) ==>
      At(Step(s, Serve(p)), p, Gone) && Step(s, Serve(p)).log == s.log + [Served(p, s.file.value)]
  {
    RunKeepsInv(w, events, s);
  }

  /**
   A fetch is published exactly if it was reported complete, is not empty and could be renamed; either way
   the part file is gone, and its request then serves what was published or passes the download through.
   */
  lemma PublishExact(w: World, events: seq<Event>, s: State, p: nat, ok: bool, renamed: bool)
    requires Runs(w, events, s) && At(s, p, Fetched(ok))
    ensures var t := Step(s, Publish(p, renamed));
      && t.part.None? && s.part.Some?
      && (ok && renamed && s.part.value != [] ==>
            t.file == s.part && t.log == s.log + [Published(p)] && At(Step(t, Unlock(p)), p, ServingLocal))
      && (!(ok && renamed && s.part.value != []) ==>
            t.file == s.file && t.log == s.log && At(Step(t, Unlock(p)), p, PassingThrough))
  {
    RunKeepsInv(w, events, s);
  }

  /** Without the directory, the lock or a part file the download is passed through. */
  lemma PassedThrough(s: State, p: nat)
    requires !Cached(s)
    ensures At(s, p, Arrived) ==> At(Step(s, Look(p, false)), p, PassingThrough)
    ensures At(s, p, WaitingForLock) ==> At(Step(s, LockFails(p)), p, PassingThrough)
    ensures At(s, p, Locked) ==> At(Step(Step(s, LookAgain(p, false)), Unlock(p)), p, PassingThrough)
  {
  }

  /** Whoever is sent to the cache finds the file there. */
  lemma ServeNeverBlocked(w: World, events: seq<Event>, s: State, p: nat)
    requires Runs(w, events, s) && At(s, p, ServingLocal)
    ensures Enabled(w, s, Serve(p)) && Cached(s)
  {
    RunKeepsInv(w, events, s);
  }

  /** At most one publication, no fetch started after it, and nothing served before it. */
  lemma PublishedOnce(w: World, events: seq<Event>, s: State, i: nat, j: nat)
    requires Runs(w, events, s) && i < |s.log| && j < |s.log| && s.log[i].Published?
    ensures s.log[j].Published? ==> i == j
    ensures s.log[j].Started? ==> j < i
    ensures s.log[j].Served? ==> i < j
  {
    RunKeepsInv(w, events, s);
    var k :| OnePublication(s.log, k, s.file.value);
  }

  /** Everything served is the one published file; through curl that is the origin's whole file. */
  lemma ServedIsPublished(w: World, events: seq<Event>, s: State, i: nat)
    requires Runs(w, events, s) && i < |s.log| && s.log[i].Served?
    ensures s.file == Some(s.log[i].content) && s.log[i].content != [] && s.log[i].content <= w.body
    ensures w.backend.Curl? ==> s.log[i].content == w.body
    ensures exists k :: 0 <= k < i && s.log[k].Published?
  {
    RunKeepsInv(w, events, s);
    var k :| OnePublication(s.log, k, s.file.value);
  }

  // ----- When the cache can be trusted to hold the whole file -----

  ghost predicate ServesWhole(w: World) {
    forall events, s, i: nat :: Runs(w, events, s) && i < |s.log| && s.log[i].Served? ==> s.log[i].content == w.body
  }

  /**
   Every request served from the cache gets the whole file exactly when the transport is curl, or the
   file is too short to be cut: a stream copy that ends early is published as if it were complete.
   */
  lemma WholeFileCondition(w: World)
    ensures ServesWhole(w) <==> w.backend.Curl? || |w.body| <= 1
  {
    if w.backend.Curl? || |w.body| <= 1 {
      forall events, s, i: nat | Runs(w, events, s) && i < |s.log| && s.log[i].Served?
        ensures s.log[i].content == w.body
      {
        ServedIsPublished(w, events, s, i);
      }
    } else {
      var events, s := TruncatedRun(w);
    }
  }

  lemma Extend(w: World, events: seq<Event>, s: State, e: Event) returns (events': seq<Event>, s': State)
    requires Runs(w, events, s) && Enabled(w, s, e)
    ensures events' == events + [e] && s' == Step(s, e) && Runs(w, events', s')
  {
    events', s' := events + [e], Step(s, e);
    assert events'[..|events'| - 1] == events;
  }

  /** A first request that finds no file starts a fetch. */
  lemma FetchingRun(w: World) returns (events: seq<Event>, s: State)
    ensures Runs(w, events, s) && At(s, 0, Fetching)
    ensures s.part == Some([]) && s.log == [Started(0)] && s.lock == Some(0)
  {
    events, s := [], INIT;
    events, s := Extend(w, events, s, Arrive(0));
    events, s := Extend(w, events, s, Look(0, true));
    events, s := Extend(w, events, s, TakeLock(0));
    events, s := Extend(w, events, s, LookAgain(0, true));
  }

  /** A first request that fetches this much, reported as the whole. */
  lemma FetchedRun(w: World, got: seq<nat>) returns (events: seq<Event>, s: State)
    requires got != [] && got <= w.body && (w.backend.Curl? ==> got == w.body)
    ensures Runs(w, events, s) && At(s, 0, Fetched(true))
    ensures s.part == Some(got) && s.log == [Started(0)] && s.lock == Some(0)
  {
    events, s := FetchingRun(w);
    assert s.part.value + got == got;
    events, s := Extend(w, events, s, Write(0, got));
    events, s := Extend(w, events, s, Finish(0, true));
  }

  lemma PublishedRun(w: World, got: seq<nat>) returns (events: seq<Event>, s: State)
    requires got != [] && got <= w.body && (w.backend.Curl? ==> got == w.body)
    ensures Runs(w, events, s) && At(s, 0, Unlocking(true))
    ensures s.file == Some(got) && s.log == [Started(0), Published(0)] && s.lock == Some(0)
  {
    events, s := FetchedRun(w, got);
    events, s := Extend(w, events, s, Publish(0, true));
  }

  /** It is published and served: the whole file, or what a stream copy took for it. */
  lemma ServedRun(w: World, got: seq<nat>) returns (events: seq<Event>, s: State)
    requires got != [] && got <= w.body && (w.backend.Curl? ==> got == w.body)
    ensures Runs(w, events, s) && s.log == [Started(0), Published(0), Served(0, got)] && s.lock.None?
  {
    events, s := PublishedRun(w, got);
    events, s := Extend(w, events, s, Unlock(0));
    events, s := Extend(w, events, s, Serve(0));
  }

  lemma TruncatedRun(w: World) returns (events: seq<Event>, s: State)
    requires w.backend.StreamCopy? && |w.body| >= 2
    ensures Runs(w, events, s) && |s.log| == 3 && s.log[2] == Served(0, [w.body[0]])
  {
    events, s := ServedRun(w, [w.body[0]]);
  }
}
