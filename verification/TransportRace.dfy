/**
 The race between one WebRTC attempt and a non-empty list of other transports
 (`race_transports_prefer_webrtc`).

 A run is a schedule of observations: an attempt reporting its result, or the loop noticing the
 clock.  Attempt 0 is the WebRTC future; attempts 1..n are the futures handed to `select_ok`.
 `select!` arms whose guard is false are not polled, so an observation no arm listens for has no
 effect: every sequence of observations is a run and nothing is required of the schedule.
 */
module TransportRace {
  import opened Options

  /** What one attempt resolves to. */
  datatype Report<+T> = Ok(conn: T) | Err(error: string)

  /** What the race resolves to: a connection, or both sides' errors. */
  datatype Verdict<+T> = Connected(conn: T) | Failed(webrtcError: string, fallbackError: string)

  datatype Event<+T> =
    | Done(id: nat, report: Report<T>, at: int)
    | Clock(at: int)

  /** The run's fixed parameters: number of other transports, window, and the directness test. */
  datatype Race<!T> = Race(n: nat, window: int, isP2p: T -> bool)

  // ----- What a schedule means, stated without the race's variables -----

  /** The attempts that have reported within the first k entries. */
  ghost function Reported<T>(h: seq<Event<T>>, k: nat): set<nat>
    requires k <= |h|
  {
    if k == 0 then {}
    else if h[k - 1].Done? then Reported(h, k - 1) + {h[k - 1].id}
    else Reported(h, k - 1)
  }

  ghost predicate AllReported<T>(race: Race<T>, h: seq<Event<T>>, k: nat)
    requires k <= |h|
  {
    forall id: nat :: id <= race.n ==> id in Reported(h, k)
  }

  /** Entry k is the first report of one of the n + 1 attempts; later reports are not polled. */
  ghost predicate Completes<T>(race: Race<T>, h: seq<Event<T>>, k: nat)
    requires k < |h|
  {
    h[k].Done? && h[k].id <= race.n && h[k].id !in Reported(h, k)
  }

  ghost predicate DirectAt<T>(race: Race<T>, h: seq<Event<T>>, k: nat)
    requires k < |h|
  {
    Completes(race, h, k) && h[k].report.Ok? && race.isP2p(h[k].report.conn)
  }

  ghost predicate RelayAt<T>(race: Race<T>, h: seq<Event<T>>, k: nat)
    requires k < |h|
  {
    Completes(race, h, k) && h[k].report.Ok? && !race.isP2p(h[k].report.conn)
  }

  ghost predicate FirstRelay<T>(race: Race<T>, h: seq<Event<T>>, r: nat)
    requires r < |h|
  {
    RelayAt(race, h, r) && forall j :: 0 <= j < r ==> !RelayAt(race, h, j)
  }

  /** The rule by which the race may stop at entry k. */
  ghost predicate CommitsAt<T>(race: Race<T>, h: seq<Event<T>>, k: nat)
    requires k < |h|
  {
    || DirectAt(race, h, k)
    || (Completes(race, h, k) && AllReported(race, h, k + 1))
    || (h[k].Clock? && exists r :: 0 <= r < k && FirstRelay(race, h, r) && h[r].at + race.window <= h[k].at)
  }

  ghost predicate FirstCommit<T>(race: Race<T>, h: seq<Event<T>>, k: nat)
    requires k < |h|
  {
    CommitsAt(race, h, k) && forall j :: 0 <= j < k ==> !CommitsAt(race, h, j)
  }

  /** Entry j is the last of the other transports to report before entry k. */
  ghost predicate LastOther<T>(race: Race<T>, h: seq<Event<T>>, k: nat, j: nat)
    requires j < k <= |h|
  {
    && Completes(race, h, j) && h[j].id != 0
    && forall i :: j < i < k && Completes(race, h, i) ==> h[i].id == 0
  }

  /** The verdict owed when the race stops at entry k. */
  ghost predicate Delivers<T>(race: Race<T>, h: seq<Event<T>>, k: nat, v: Verdict<T>)
    requires k < |h|
  {
    if h[k].Done? && h[k].report.Ok? then
      v == Connected(h[k].report.conn)
    else if exists r :: 0 <= r < k && RelayAt(race, h, r) then
      exists r :: 0 <= r < k && FirstRelay(race, h, r) && v == Connected(h[r].report.conn)
    else
      && v.Failed?
      && (exists w :: 0 <= w <= k && Completes(race, h, w) && h[w].id == 0 && h[w].report == Err(v.webrtcError))
      && (exists o :: 0 <= o <= k && LastOther(race, h, k + 1, o) && h[o].report == Err(v.fallbackError))
  }

  // ----- The loop -----

  function Others(n: nat): (ids: set<nat>)
    ensures forall id :: id in ids <==> 1 <= id <= n
  {
    if n == 0 then {} else Others(n - 1) + {n}
  }

  /**
   The loop's variables.  `webrtcPending` and `others` are the two future slots (a `select_ok` future
   is the set of attempts it still holds: it swallows an error unless that was the last one), `held`
   is the relayed result kept back, `windowStarted` and `deadline` the one-shot window.
   */
  datatype Slots<+T> = Slots(
    webrtcPending: bool,
    others: set<nat>,
    held: Option<T>,
    webrtcErr: Option<string>,
    othersErr: Option<string>,
    windowStarted: bool,
    deadline: int)

  /** Where in the schedule the values in the slots came from. */
  datatype Marks = Marks(held: nat, webrtc: nat, other: nat)

  /** What holds at every loop head. */
  ghost predicate LoopHead<T>(race: Race<T>, h: seq<Event<T>>, at: nat, s: Slots<T>, m: Marks)
    requires at <= |h|
  {
    // Progress: some attempt is still pending.
    && (s.webrtcPending || s.others != {})
    && Pending(race, h, at, s)
    && HeldIsFirstRelay(race, h, at, s, m.held)
    // Where the saved errors came from, and that a slot emptied without one left a relay held.
    && (!s.webrtcPending ==> m.webrtc < at && Completes(race, h, m.webrtc) && h[m.webrtc].id == 0)
    && (s.webrtcErr.Some? ==> !s.webrtcPending && h[m.webrtc].report == Err(s.webrtcErr.value))
    && (!s.webrtcPending && s.webrtcErr.None? ==> s.held.Some?)
    && (s.others == {} ==> m.other < at && LastOther(race, h, at, m.other))
    && (s.othersErr.Some? ==> s.others == {} && h[m.other].report == Err(s.othersErr.value))
    && (s.others == {} && s.othersErr.None? ==> s.held.Some?)
  }

  ghost predicate Pending<T>(race: Race<T>, h: seq<Event<T>>, at: nat, s: Slots<T>)
    requires at <= |h|
  {
    && (s.webrtcPending <==> 0 !in Reported(h, at))
    && (forall id :: id in s.others <==> 1 <= id <= race.n && id !in Reported(h, at))
  }

  ghost predicate HeldIsFirstRelay<T>(race: Race<T>, h: seq<Event<T>>, at: nat, s: Slots<T>, heldAt: nat)
    requires at <= |h|
  {
    && (s.windowStarted <==> s.held.Some?)
    && (s.held.None? ==> forall r :: 0 <= r < at ==> !RelayAt(race, h, r))
    && (s.held.Some? ==>
          && heldAt < at && FirstRelay(race, h, heldAt)
          && s.held == Some(h[heldAt].report.conn)
          && s.deadline == h[heldAt].at + race.window)
  }

  /** An iteration either stops as the rule says, or reaches the next loop head without having to. */
  ghost predicate Iteration<T>(race: Race<T>, h: seq<Event<T>>, at: nat, s: Slots<T>, m: Marks, v: Option<Verdict<T>>)
    requires at < |h|
  {
    match v
    case Some(verdict) => CommitsAt(race, h, at) && Delivers(race, h, at, verdict)
    case None => !CommitsAt(race, h, at) && LoopHead(race, h, at + 1, s, m)
  }

  /** Keeping back a relayed result: only the first one is held, and it alone arms the window. */
  function Hold<T>(race: Race<T>, s: Slots<T>, conn: T, now: int): Slots<T> {
    if s.held.None? then s.(held := Some(conn), windowStarted := true, deadline := now + race.window) else s
  }

  /** First arm: the WebRTC future resolves. */
  method OnWebRtc<T>(race: Race<T>, ghost h: seq<Event<T>>, ghost at: nat, ghost m: Marks, s0: Slots<T>, e: Event<T>)
    returns (s: Slots<T>, verdict: Option<Verdict<T>>, ghost m': Marks)
    requires at < |h| && e == h[at] && e.Done? && e.id == 0 && s0.webrtcPending
    requires LoopHead(race, h, at, s0, m)
    ensures Iteration(race, h, at, s, m', verdict)
  {
    s, verdict, m' := s0.(webrtcPending := false), None, m.(webrtc := at);
    StillPending(race, h, at, s);
    match e.report {
      case Ok(conn) =>
        if race.isP2p(conn) || s.others == {} {
          verdict := Some(Connected(conn));
          return;
        }
        m' := if s.held.None? then m'.(held := at) else m';
        s := Hold(race, s, conn, e.at);
      case Err(err) =>
        if s.others == {} && s.held.Some? {
          verdict := Some(Connected(s.held.value));
          return;
        }
        if s.othersErr.Some? {
          verdict := Some(Failed(err, s.othersErr.value));
        } else if s.others == {} {
          assert false;  // failing with the WebRTC error alone
        } else {
          s := s.(webrtcErr := Some(err));
        }
    }
  }

  /** Second arm: one of the attempts inside `select_ok` resolves. */
  method OnOther<T>(race: Race<T>, ghost h: seq<Event<T>>, ghost at: nat, ghost m: Marks, s0: Slots<T>, e: Event<T>)
    returns (s: Slots<T>, verdict: Option<Verdict<T>>, ghost m': Marks)
    requires at < |h| && e == h[at] && e.Done? && e.id in s0.others
    requires LoopHead(race, h, at, s0, m)
    ensures Iteration(race, h, at, s, m', verdict)
  {
    s, verdict, m' := s0.(others := s0.others - {e.id}), None, m.(other := at);
    StillPending(race, h, at, s);
    match e.report {
      case Ok(conn) =>
        if race.isP2p(conn) || (!s.webrtcPending && s.others == {}) {
          verdict := Some(Connected(conn));
          return;
        }
        m' := if s.held.None? then m'.(held := at) else m';
        s := Hold(race, s, conn, e.at);
      case Err(err) =>
        if s.others != {} {
          return;  // swallowed by `select_ok`
        }
        if s.webrtcErr.Some? {
          verdict := Some(if s.held.Some? then Connected(s.held.value) else Failed(s.webrtcErr.value, err));
        } else if s.webrtcPending {
          s := s.(othersErr := Some(err));
        } else if s.held.Some? {
          verdict := Some(Connected(s.held.value));
        } else {
          assert false;  // failing with the fallback's error alone
        }
    }
  }

  /**
   The race itself.  Each `assert false` in an arm marks a branch the source has and no run reaches.
   */
  method Run<T>(race: Race<T>, h: seq<Event<T>>) returns (verdict: Option<Verdict<T>>, at: nat)
    requires 1 <= race.n
    ensures verdict.None? ==> at == |h| && forall j :: 0 <= j < |h| ==> !CommitsAt(race, h, j)
    ensures verdict.Some? ==> at < |h| && FirstCommit(race, h, at) && Delivers(race, h, at, verdict.value)
  {
    var s: Slots<T> := Slots(true, Others(race.n), None, None, None, false, 0);
    ghost var m := Marks(0, 0, 0);
    assert 1 in s.others;
    verdict, at := None, 0;
    while at < |h|
      invariant at <= |h|
      invariant forall j :: 0 <= j < at ==> !CommitsAt(race, h, j)
      invariant LoopHead(race, h, at, s, m)
      invariant verdict.None?
    {
      var e := h[at];
      if e.Done? && e.id == 0 && s.webrtcPending {
        s, verdict, m := OnWebRtc(race, h, at, m, s, e);
      } else if e.Done? && e.id in s.others {
        s, verdict, m := OnOther(race, h, at, m, s, e);
      } else if e.Clock? && s.windowStarted && s.deadline <= e.at {
        if s.held.Some? {
          verdict := Some(Connected(s.held.value));
        } else {
          assert false;  // the window firing with nothing held
        }
      } else {
        Unpolled(race, h, at, s, m);
      }
      if verdict.Some? {
        return;
      }
      at := at + 1;
    }
  }

  /** After attempt `h[at].id` has left its slot, all have reported exactly when both slots are empty. */
  lemma StillPending<T>(race: Race<T>, h: seq<Event<T>>, at: nat, s: Slots<T>)
    requires at < |h| && h[at].Done?
    requires s.webrtcPending <==> 0 !in Reported(h, at) + {h[at].id}
    requires forall id :: id in s.others <==> 1 <= id <= race.n && id !in Reported(h, at) + {h[at].id}
    ensures Pending(race, h, at + 1, s)
    ensures AllReported(race, h, at + 1) <==> !s.webrtcPending && s.others == {}
  {
    if s.others != {} {
      var id :| id in s.others;
      assert id !in Reported(h, at + 1);
    }
  }

  /** An observation no arm listens for neither commits nor changes anything. */
  lemma Unpolled<T>(race: Race<T>, h: seq<Event<T>>, at: nat, s: Slots<T>, m: Marks)
    requires at < |h| && LoopHead(race, h, at, s, m)
    requires h[at].Done? ==> h[at].id != 0 || !s.webrtcPending
    requires h[at].Done? ==> h[at].id !in s.others
    requires h[at].Clock? ==> !s.windowStarted || h[at].at < s.deadline
    ensures Iteration(race, h, at, s, m, None)
  {
    assert !Completes(race, h, at);
  }

  // ----- What every run owes its caller -----

  /** Once every attempt has reported, the race has stopped: there is no schedule it waits on forever. */
  lemma {:induction false} EveryRunEnds<T>(race: Race<T>, h: seq<Event<T>>)
    requires AllReported(race, h, |h|)
    ensures exists k :: 0 <= k < |h| && FirstCommit(race, h, k)
  {
    var k := LastReport(race, h, |h|);
    var c := LeastCommit(race, h, k);
  }

  lemma {:induction false} LastReport<T>(race: Race<T>, h: seq<Event<T>>, n: nat) returns (k: nat)
    requires n <= |h| && AllReported(race, h, n)
    ensures k < n && Completes(race, h, k) && AllReported(race, h, k + 1)
  {
    assert 0 in Reported(h, n);
    if AllReported(race, h, n - 1) {
      k := LastReport(race, h, n - 1);
    } else {
      var id: nat :| id <= race.n && id !in Reported(h, n - 1);
      assert id in Reported(h, n);
      k := n - 1;
    }
  }

  lemma {:induction false} LeastCommit<T>(race: Race<T>, h: seq<Event<T>>, k: nat) returns (c: nat)
    requires k < |h| && CommitsAt(race, h, k)
    ensures c <= k && FirstCommit(race, h, c)
  {
    if j: nat :| j < k && CommitsAt(race, h, j) {
      c := LeastCommit(race, h, j);
    } else {
      c := k;
    }
  }

  /** The schedule alone decides the verdict. */
  lemma VerdictUnique<T>(race: Race<T>, h: seq<Event<T>>, k: nat, v: Verdict<T>, w: Verdict<T>)
    requires k < |h| && FirstCommit(race, h, k) && Delivers(race, h, k, v) && Delivers(race, h, k, w)
    ensures v == w
  {
    if h[k].Done? && h[k].report.Ok? {
    } else if exists r :: 0 <= r < k && RelayAt(race, h, r) {
      var r :| 0 <= r < k && FirstRelay(race, h, r) && v == Connected(h[r].report.conn);
      var q :| 0 <= q < k && FirstRelay(race, h, q) && w == Connected(h[q].report.conn);
      assert r == q;
    } else {
      var x :| 0 <= x <= k && Completes(race, h, x) && h[x].id == 0 && h[x].report == Err(v.webrtcError);
      var y :| 0 <= y <= k && Completes(race, h, y) && h[y].id == 0 && h[y].report == Err(w.webrtcError);
      CompletesOnce(race, h, x, y);
      var o :| 0 <= o <= k && LastOther(race, h, k + 1, o) && h[o].report == Err(v.fallbackError);
      var p :| 0 <= p <= k && LastOther(race, h, k + 1, p) && h[p].report == Err(w.fallbackError);
      assert o == p;
    }
  }

  lemma CompletesOnce<T>(race: Race<T>, h: seq<Event<T>>, j: nat, k: nat)
    requires j < |h| && k < |h| && Completes(race, h, j) && Completes(race, h, k) && h[j].id == h[k].id
    ensures j == k
  {
    if j < k {
      ReportedStays(h, j, k);
    } else if k < j {
      ReportedStays(h, k, j);
    }
  }

  lemma {:induction false} ReportedStays<T>(h: seq<Event<T>>, j: nat, k: nat)
    requires j < k <= |h| && h[j].Done?
    ensures h[j].id in Reported(h, k)
  {
    if j < k - 1 {
      ReportedStays(h, j, k - 1);
    }
  }

  /** A direct success ends the race at the moment it is observed, and is what the race returns. */
  lemma DirectWinsAtOnce<T>(race: Race<T>, h: seq<Event<T>>, k: nat, v: Verdict<T>, j: nat)
    requires k < |h| && FirstCommit(race, h, k) && Delivers(race, h, k, v)
    requires j <= k && DirectAt(race, h, j)
    ensures j == k && v == Connected(h[j].report.conn)
  {
    assert CommitsAt(race, h, j);
  }

  /** A relayed verdict means nothing was left to wait for, or the first relay's window had run out. */
  lemma RelayOnlyWhenDue<T>(race: Race<T>, h: seq<Event<T>>, k: nat, v: Verdict<T>)
    requires k < |h| && FirstCommit(race, h, k) && Delivers(race, h, k, v)
    requires v.Connected? && !race.isP2p(v.conn)
    ensures AllReported(race, h, k + 1)
         || exists r :: 0 <= r < k && FirstRelay(race, h, r) && v.conn == h[r].report.conn
                        && h[r].at + race.window <= h[k].at
  {
    if DirectAt(race, h, k) {
      assert false;
    } else if h[k].Clock? {
      var r :| 0 <= r < k && FirstRelay(race, h, r) && h[r].at + race.window <= h[k].at;
      var q :| 0 <= q < k && FirstRelay(race, h, q) && v == Connected(h[q].report.conn);
      assert r == q;
    }
  }

  /** The race succeeds exactly when some attempt had succeeded, and with what that attempt returned. */
  lemma SucceedsIffSomeoneDid<T>(race: Race<T>, h: seq<Event<T>>, k: nat, v: Verdict<T>)
    requires k < |h| && FirstCommit(race, h, k) && Delivers(race, h, k, v)
    ensures v.Connected? <==> exists j :: 0 <= j <= k && Completes(race, h, j) && h[j].report.Ok?
    ensures v.Connected? ==> exists j :: 0 <= j <= k && Completes(race, h, j) && h[j].report == Ok(v.conn)
    ensures v.Failed? ==> AllReported(race, h, k + 1)
  {
    if h[k].Done? && h[k].report.Ok? {
      assert Completes(race, h, k);
    } else if exists r :: 0 <= r < k && RelayAt(race, h, r) {
      var r :| 0 <= r < k && FirstRelay(race, h, r) && v == Connected(h[r].report.conn);
      assert Completes(race, h, r);
    } else {
      forall j | 0 <= j <= k && Completes(race, h, j)
        ensures h[j].report.Err?
      {
        assert j < k ==> !CommitsAt(race, h, j) && !RelayAt(race, h, j);
      }
    }
  }

  /** What a schedule decides within its first n entries depends on those alone. */
  lemma CommitsLocal<T>(race: Race<T>, h: seq<Event<T>>, g: seq<Event<T>>, n: nat, j: nat)
    requires n <= |h| && n <= |g| && h[..n] == g[..n] && j < n
    ensures CommitsAt(race, h, j) <==> CommitsAt(race, g, j)
  {
    forall k: nat | k <= n
      ensures Reported(h, k) == Reported(g, k)
    {
      ReportedLocal(h, g, n, k);
    }
    assert forall k :: 0 <= k < n ==> h[k] == h[..n][k] == g[k];
    assert forall k :: 0 <= k < n ==> (RelayAt(race, h, k) <==> RelayAt(race, g, k));
    assert forall k :: 0 <= k < n ==> (FirstRelay(race, h, k) <==> FirstRelay(race, g, k));
  }

  lemma {:induction false} ReportedLocal<T>(h: seq<Event<T>>, g: seq<Event<T>>, n: nat, k: nat)
    requires k <= n <= |h| && n <= |g| && h[..n] == g[..n]
    ensures Reported(h, k) == Reported(g, k)
  {
    if k > 0 {
      ReportedLocal(h, g, n, k - 1);
      assert h[k - 1] == h[..n][k - 1] == g[k - 1];
    }
  }

  // ----- Plain `select_ok`, where nothing is preferred -----

  /** Entry k is the first report of one of the attempts 1..n. */
  ghost predicate Resolves<T>(n: nat, h: seq<Event<T>>, k: nat)
    requires k < |h|
  {
    h[k].Done? && 1 <= h[k].id <= n && h[k].id !in Reported(h, k)
  }

  /** `select_ok` is over at entry k: a success, or the last of the attempts failing. */
  ghost predicate SelectsAt<T>(n: nat, h: seq<Event<T>>, k: nat)
    requires k < |h|
  {
    Resolves(n, h, k) && (h[k].report.Ok? || Others(n) <= Reported(h, k + 1))
  }

  /** The first success among attempts 1..n; the last error once all have failed. */
  method SelectOk<T>(n: nat, h: seq<Event<T>>) returns (r: Option<Report<T>>, at: nat)
    requires 1 <= n
    ensures r.None? ==> at == |h|
    ensures r.Some? ==> at < |h| && SelectsAt(n, h, at) && r.value == h[at].report
    ensures forall j :: 0 <= j < at ==> !SelectsAt(n, h, j)
  {
    var pending := Others(n);
    assert 1 in pending;
    r, at := None, 0;
    while at < |h|
      invariant at <= |h| && r.None? && pending != {}
      invariant forall id :: id in pending <==> 1 <= id <= n && id !in Reported(h, at)
      invariant forall j :: 0 <= j < at ==> !SelectsAt(n, h, j)
    {
      var e := h[at];
      if e.Done? && e.id in pending {
        pending := pending - {e.id};
        if e.report.Ok? || pending == {} {
          r := Some(e.report);
          return;
        }
        assert exists id :: id in pending && id !in Reported(h, at + 1);
      }
      at := at + 1;
    }
  }
}
