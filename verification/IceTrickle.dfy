/** Trickled ICE candidates: those buffered before the answer, and the bridge that sends and re-sends ours. */
module IceTrickle {

  const MAX_PENDING_WEBRTC_ICE: nat := 64
  const WEBRTC_ICE_RESEND_DELAY: int := 400

  // ----- Candidates of the peer, buffered until the answer is applied -----

  datatype IceCandidate = IceCandidate(sessionKey: string, candidate: string)

  predicate IsExpected(ice: IceCandidate, sessionKey: string) {
    sessionKey != "" && ice.sessionKey == sessionKey && ice.candidate != ""
  }

  /** The candidates of a message stream that belong to the session, in order of arrival. */
  function Accepted(messages: seq<IceCandidate>, sessionKey: string): seq<string> {
    if messages == [] then []
    else
      var last := messages[|messages| - 1];
      Accepted(messages[..|messages| - 1], sessionKey) + if IsExpected(last, sessionKey) then [last.candidate] else []
  }

  function LastOf<T>(s: seq<T>, n: nat): seq<T> {
    if |s| <= n then s else s[|s| - n..]
  }

  /** The buffer is exactly the last 64 accepted candidates: on overflow the oldest is evicted. */
  method BufferPending(messages: seq<IceCandidate>, sessionKey: string) returns (pending: seq<string>)
    ensures pending == LastOf(Accepted(messages, sessionKey), 64)
  {
    pending := [];
    for i := 0 to |messages|
      invariant pending == LastOf(Accepted(messages[..i], sessionKey), MAX_PENDING_WEBRTC_ICE)
    {
      var ice := messages[i];
      assert messages[..i + 1][..i] == messages[..i];
      if IsExpected(ice, sessionKey) {
        if |pending| >= MAX_PENDING_WEBRTC_ICE {
          pending := pending[1..];
        }
        pending := pending + [ice.candidate];
      }
    }
    assert messages[..|messages|] == messages;
  }

  /**
   One more message: a candidate of our session is buffered last, the first going if there were 64; one of
   another session, or an empty one, changes nothing, and without a session nothing is ever buffered.
   */
  lemma OneMoreMessage(messages: seq<IceCandidate>, ice: IceCandidate, key: string)
    ensures var before := LastOf(Accepted(messages, key), 64); var after := LastOf(Accepted(messages + [ice], key), 64);
      && |before| <= 64
      && (key != "" && ice.sessionKey == key && ice.candidate != "" ==>
            after == (if |before| == 64 then before[1..] else before) + [ice.candidate])
      && (key == "" || ice.sessionKey != key || ice.candidate == "" ==> after == before)
    ensures LastOf(Accepted([], key), 64) == []
  {
    assert (messages + [ice])[..|messages|] == messages;
  }

  // ----- Our candidates, sent once at once and once more after a delay -----

  /** A candidate on its way, with the time its first copy went out. */
  datatype Sent = Sent(at: int, candidate: string)

  predicate Due(e: Sent, now: int) { now - e.at >= WEBRTC_ICE_RESEND_DELAY }

  /** A second copy is due from 400 milliseconds after the first on. */
  lemma DueExact(e: Sent, now: int)
    ensures Due(e, now) <==> now >= e.at + 400
  {
  }

  /** `Vec::swap_remove`: the last element takes the place of the removed one. */
  function SwapRemove<T>(s: seq<T>, i: nat): (r: seq<T>)
    requires i < |s|
    ensures |r| == |s| - 1
  {
    if i == |s| - 1 then s[..i] else s[..|s| - 1][i := s[|s| - 1]]
  }

  lemma SwapRemoveMultiset<T>(s: seq<T>, i: nat)
    requires i < |s|
    ensures multiset(s) == multiset(SwapRemove(s, i)) + multiset{s[i]}
  {
    var n := |s| - 1;
    assert s == s[..n] + [s[n]];
    if i < n {
      assert s[..n] == s[..i] + [s[i]] + s[i + 1..n];
      assert SwapRemove(s, i) == s[..i] + [s[n]] + s[i + 1..n];
    }
  }

  /** Of the candidates looked at, check k at log[k], those found due, or those found not due, in order. */
  ghost function Picked(log: seq<Sent>, now: nat -> int, due: bool): seq<Sent> {
    if log == [] then []
    else
      var k := |log| - 1;
      Picked(log[..k], now, due) + if Due(log[k], now(k)) == due then [log[k]] else []
  }

  lemma PickedOne(log: seq<Sent>, now: nat -> int, e: Sent)
    ensures Picked(log + [e], now, Due(e, now(|log|))) == Picked(log, now, Due(e, now(|log|))) + [e]
    ensures Picked(log + [e], now, !Due(e, now(|log|))) == Picked(log, now, !Due(e, now(|log|)))
  {
    assert (log + [e])[..|log|] == log;
  }

  /** Every candidate looked at was found one or the other. */
  lemma {:induction false} PickedAll(log: seq<Sent>, now: nat -> int)
    ensures multiset(log) == multiset(Picked(log, now, true)) + multiset(Picked(log, now, false))
  {
    if log != [] {
      var init, e := log[..|log| - 1], log[|log| - 1];
      assert log == init + [e];
      PickedAll(init, now);
      PickedOne(init, now, e);
      OneMore(init, Picked(init, now, true), Picked(init, now, false), e);
    }
  }

  lemma OneMore(s: seq<Sent>, a: seq<Sent>, b: seq<Sent>, e: Sent)
    requires multiset(s) == multiset(a) + multiset(b)
    ensures multiset(s + [e]) == multiset(a + [e]) + multiset(b) == multiset(a) + multiset(b + [e])
  {
  }

  /** Each candidate picked was looked at, and found so at its own check. */
  lemma {:induction false} PickedAt(log: seq<Sent>, now: nat -> int, due: bool, e: Sent) returns (k: nat)
    requires e in Picked(log, now, due)
    ensures k < |log| && log[k] == e && Due(e, now(k)) == due
  {
    k := |log| - 1;
    if !(log[k] == e && Due(e, now(k)) == due) {
      k := PickedAt(log[..k], now, due, e);
    }
  }

  ghost predicate NoneDue(queue: seq<Sent>, now: int) {
    forall i :: 0 <= i < |queue| ==> !Due(queue[i], now)
  }

  /** The clock does not run backwards. */
  ghost predicate Forwards(now: nat -> int) {
    forall i: nat, j: nat :: i <= j ==> now(i) <= now(j)
  }

  /** With a clock that does not run backwards, what is kept was not due when the pass began. */
  lemma KeptNotDue(log: seq<Sent>, now: nat -> int)
    requires Forwards(now)
    ensures NoneDue(Picked(log, now, false), now(0))
  {
    var kept := Picked(log, now, false);
    forall i | 0 <= i < |kept|
      ensures !Due(kept[i], now(0))
    {
      var k := PickedAt(log, now, false, kept[i]);
      assert now(0) <= now(k);
    }
  }

  /** The queue is what is kept, what was sent again and what failed. */
  ghost predicate Parted(queue: seq<Sent>, rest: seq<Sent>, again: seq<Sent>, failed: seq<Sent>) {
    multiset(queue) == multiset(rest) + multiset(again) + multiset(failed)
  }

  /** What is known in the middle of a pass, the first i candidates of the queue having been passed over. */
  ghost predicate Midway(queue: seq<Sent>, rest: seq<Sent>, i: nat, again: seq<Sent>, log: seq<Sent>, now: nat -> int) {
    && i <= |rest| && multiset(queue) == multiset(rest) + multiset(again)
    && again == Picked(log, now, true) && rest[..i] == Picked(log, now, false)
  }

  lemma TakeOne(queue: seq<Sent>, rest: seq<Sent>, i: nat, again: seq<Sent>, log: seq<Sent>, now: nat -> int)
    requires Midway(queue, rest, i, again, log, now) && i < |rest| && Due(rest[i], now(|log|))
    ensures Midway(queue, SwapRemove(rest, i), i, again + [rest[i]], log + [rest[i]], now)
    ensures Parted(queue, SwapRemove(rest, i), again, [rest[i]])
  {
    SwapRemoveMultiset(rest, i);
    PickedOne(log, now, rest[i]);
    assert SwapRemove(rest, i)[..i] == rest[..i];
  }

  lemma PassOver(queue: seq<Sent>, rest: seq<Sent>, i: nat, again: seq<Sent>, log: seq<Sent>, now: nat -> int)
    requires Midway(queue, rest, i, again, log, now) && i < |rest| && !Due(rest[i], now(|log|))
    ensures Midway(queue, rest, i + 1, again, log + [rest[i]], now)
  {
    PickedOne(log, now, rest[i]);
    assert rest[..i + 1] == rest[..i] + [rest[i]];
  }

  lemma PassDone(queue: seq<Sent>, rest: seq<Sent>, again: seq<Sent>, log: seq<Sent>, now: nat -> int)
    requires Midway(queue, rest, |rest|, again, log, now)
    ensures multiset(log) == multiset(queue) && rest == Picked(log, now, false)
    ensures Parted(queue, rest, again, []) && again + [] == Picked(log, now, true)
  {
    assert rest[..|rest|] == rest;
    PickedAll(log, now);
  }

  /**
   One pass over the queue, reading the clock before each decision and possibly failing a send; check k
   looks at log[k].  Although removal reorders the queue under the loop's feet, every candidate is looked
   at exactly once: it is re-sent if it is due at its own check and kept if it is not, nothing is re-sent
   twice, and nothing is lost but the one whose send failed.
   */
  method ResendPass(queue: seq<Sent>, now: nat -> int, sendOk: nat -> bool)
    returns (rest: seq<Sent>, again: seq<Sent>, failed: seq<Sent>, ghost log: seq<Sent>)
    ensures Parted(queue, rest, again, failed) && |failed| <= 1
    ensures again + failed == Picked(log, now, true)
    ensures failed == [] ==> multiset(log) == multiset(queue) && rest == Picked(log, now, false)
  {
    rest, again, failed, log := queue, [], [], [];
    var i: nat, check: nat, send: nat := 0, 0, 0;
    while i < |rest|
      invariant failed == [] && check == |log| && Midway(queue, rest, i, again, log, now)
      decreases |rest| - i
    {
      var e := rest[i];
      if Due(e, now(check)) {
        TakeOne(queue, rest, i, again, log, now);
        rest, log := SwapRemove(rest, i), log + [e];
        if !sendOk(send) {
          failed := [e];
          return;
        }
        again := again + [e];
        send := send + 1;
      } else {
        PassOver(queue, rest, i, again, log, now);
        i, log := i + 1, log + [e];
      }
      check := check + 1;
    }
    PassDone(queue, rest, again, log, now);
  }

  /** Each first copy is re-sent once, still queued, or was lost with the bridge. */
  ghost predicate Conserved(first: seq<Sent>, second: seq<Sent>, queued: seq<Sent>, lost: seq<Sent>) {
    multiset(first) == multiset(second) + multiset(queued) + multiset(lost)
  }

  lemma StillConserved(first: seq<Sent>, second: seq<Sent>, queued: seq<Sent>, rest: seq<Sent>, again: seq<Sent>, failed: seq<Sent>)
    requires Conserved(first, second, queued, []) && Parted(queued, rest, again, failed)
    ensures Conserved(first, second + again, rest, failed)
  {
  }

  /** A pass, seen from the bridge. */
  method ConservingPass(queue: seq<Sent>, now: nat -> int, sendOk: nat -> bool, ghost first: seq<Sent>, ghost second: seq<Sent>)
    returns (rest: seq<Sent>, failed: seq<Sent>, ghost again: seq<Sent>, ghost log: seq<Sent>)
    requires Conserved(first, second, queue, []) && Forwards(now)
    ensures Conserved(first, second + again, rest, failed) && |failed| <= 1
    ensures again + failed == Picked(log, now, true)
    ensures failed == [] ==> multiset(log) == multiset(queue) && rest == Picked(log, now, false) && NoneDue(rest, now(0))
  {
    var resent;
    rest, resent, failed, log := ResendPass(queue, now, sendOk);
    again := resent;
    KeptNotDue(log, now);
    StillConserved(first, second, queue, rest, again, failed);
  }

  /** First copies go out in channel order, each with the candidate it was taken for; the last may fail. */
  ghost predicate InOrder(taken: seq<string>, first: seq<Sent>) {
    && |taken| - 1 <= |first| <= |taken|
    && forall i :: 0 <= i < |first| ==> first[i].candidate == taken[i]
  }

  /** The bridge task's state across its polling rounds. */
  class IceBridge {
    var pendingResend: seq<Sent>
    var stopped: bool
    /** What was taken from the channel, which first copies went out, which second ones, and what a failed send cost. */
    ghost var taken: seq<string>
    ghost var first: seq<Sent>
    ghost var second: seq<Sent>
    ghost var lost: seq<Sent>

    ghost predicate Valid()
      reads this
    {
      && Conserved(first, second, pendingResend, lost)
      && (!stopped ==> lost == []) && |lost| <= 1
      && InOrder(taken, first) && (!stopped ==> |first| == |taken|)
    }

    constructor ()
      ensures Valid() && !stopped && taken == []
    {
      pendingResend, stopped := [], false;
      taken, first, second, lost := [], [], [], [];
    }

    /** One candidate drained from the channel; a failed send ends the bridge. */
    method Forward(candidate: string, now: int, sendOk: bool)
      requires Valid() && !stopped
      modifies this`pendingResend, this`stopped, this`taken, this`first
      ensures Valid() && stopped == !sendOk && taken == old(taken) + [candidate]
      ensures sendOk ==> first == old(first) + [Sent(now, candidate)] && pendingResend == old(pendingResend) + [Sent(now, candidate)]
      ensures !sendOk ==> first == old(first) && pendingResend == old(pendingResend)
    {
      taken := taken + [candidate];
      if !sendOk {
        stopped := true;
        return;
      }
      pendingResend := pendingResend + [Sent(now, candidate)];
      first := first + [Sent(now, candidate)];
    }

    /** Check k of the pass looks at log[k]. */
    method Resend(now: nat -> int, sendOk: nat -> bool) returns (ghost again: seq<Sent>, ghost log: seq<Sent>)
      requires Valid() && !stopped
      requires Forwards(now)
      modifies this`pendingResend, this`second, this`lost, this`stopped
      ensures Valid()
      ensures second == old(second) + again && again + lost == Picked(log, now, true)
      ensures !stopped ==> multiset(log) == old(multiset(pendingResend)) && pendingResend == Picked(log, now, false)
      ensures !stopped ==> NoneDue(pendingResend, now(0))
    {
      var rest, failed;
      rest, failed, again, log := ConservingPass(pendingResend, now, sendOk, first, second);
      second, lost := second + again, failed;
      pendingResend, stopped := rest, failed != [];
    }
  }
}
