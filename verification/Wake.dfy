/** The wake-up channel of the supervisor loop: notifications are counted, and the loop waits for the count to
    differ from what it last saw. Any thread may notify or stop at any moment. */
module Wake {

  /** Where the loop is: at its condition, in a tick, in the wait, or over. */
  datatype Place = Top | Ticking | Waiting | Over

  datatype Loop = Loop(count: nat, seen: nat, stopped: bool, place: Place)

  datatype Event =
    | Notify
    | Stop
    | TickStart
    | TickEnd(reaped: bool)
    | WakeUp   // the wait ends because of a notification or a stop
    | TimeOut  // the wait takes its full time
    | Leave

  predicate Enabled(s: Loop, e: Event) {
    match e
    case Notify => true
    case Stop => true
    case TickStart => s.place == Top && !s.stopped
    case TickEnd(_) => s.place == Ticking
    case WakeUp => s.place == Waiting && (s.count != s.seen || s.stopped)
    case TimeOut => s.place == Waiting && s.count == s.seen && !s.stopped
    case Leave => s.place == Top && s.stopped
  }

  function Step(s: Loop, e: Event): Loop
    requires Enabled(s, e)
  {
    match e
    case Notify => s.(count := s.count + 1)
    case Stop => s.(stopped := true)
    case TickStart => s.(place := Ticking)
    case TickEnd(reaped) => s.(place := if reaped then Top else Waiting)
    case WakeUp => s.(seen := s.count, place := Top)
    case TimeOut => s.(seen := s.count, place := Top)
    case Leave => s.(place := Over)
  }

  ghost predicate Runs(s: Loop, run: seq<Event>)
    decreases |run|
  {
    run == [] || (Enabled(s, run[0]) && Runs(Step(s, run[0]), run[1..]))
  }

  /** After the notification at `i` the loop takes a full wait at `j` without having started a tick. */
  ghost predicate Missed(run: seq<Event>, i: nat, j: nat) {
    i < j < |run| && run[i] == Notify && run[j] == TimeOut && forall k :: i < k < j ==> run[k] != TickStart
  }

  /** From a loop that has not seen the count, there is no full wait before the next tick starts. */
  lemma {:induction false} TickFirst(s: Loop, run: seq<Event>, j: nat) returns (k: nat)
    requires Runs(s, run) && j < |run| && run[j] == TimeOut
    requires s.place == Waiting || s.place == Ticking ==> s.seen < s.count
    ensures k < j && run[k] == TickStart
    decreases |run|
  {
    if run[0] == TickStart {
      k := 0;
    } else {
      k := TickFirst(Step(s, run[0]), run[1..], j - 1);
      k := k + 1;
    }
  }

  /** No notification is lost: in every run of the loop, which starts by reading the count, between a notification
      and the next wait that takes its full time a tick starts. */
  lemma {:induction false} NotifyThenTick(s: Loop, run: seq<Event>, i: nat, j: nat)
    requires s.seen <= s.count && Runs(s, run)
    ensures !Missed(run, i, j)
    decreases |run|
  {
    if i < j < |run| && run[i] == Notify && run[j] == TimeOut {
      var t := Step(s, run[0]);
      if i == 0 {
        var k := TickFirst(t, run[1..], j - 1);
        assert run[k + 1] == TickStart;
      } else {
        NotifyThenTick(t, run[1..], i - 1, j - 1);
        assert forall k :: i < k < j ==> run[1..][k - 1] == run[k];
        assert forall k :: i - 1 < k < j - 1 ==> run[k + 1] == run[1..][k];
      }
    }
  }

  // ----- and the tick comes soon -----

  predicate OfLoop(e: Event) {
    e != Notify && e != Stop
  }

  function LoopSteps(run: seq<Event>): nat {
    if run == [] then 0 else (if OfLoop(run[0]) then 1 else 0) + LoopSteps(run[1..])
  }

  /** How many steps of its own the loop is from starting a tick, once notified. */
  function Distance(s: Loop): nat {
    match s.place
    case Top => 0
    case Waiting => 1
    case Ticking => 2
    case Over => 0
  }

  /** Once notified, the loop never blocks, and starts its next tick after at most two steps of its own: the end
      of the tick it may be in and the end of the wait. */
  lemma {:induction false} TickSoon(s: Loop, run: seq<Event>)
    requires Runs(s, run) && s.place != Over && (s.place != Top ==> s.seen < s.count)
    requires TickStart !in run && Stop !in run && !s.stopped
    ensures LoopSteps(run) <= Distance(s)
    ensures exists e :: OfLoop(e) && Enabled(s, e)
    decreases |run|
  {
    match s.place {
      case Top => assert OfLoop(TickStart) && Enabled(s, TickStart);
      case Ticking => assert OfLoop(TickEnd(false)) && Enabled(s, TickEnd(false));
      case Waiting => assert OfLoop(WakeUp) && Enabled(s, WakeUp);
    }
    if run != [] {
      assert run[0] in run && forall e :: e in run[1..] ==> e in run;
      TickSoon(Step(s, run[0]), run[1..]);
    }
  }

  // ----- and none comes for nothing -----

  ghost predicate Quiet(run: seq<Event>, i: nat, j: nat) {
    i < j < |run| && forall k :: i < k < j ==> !OfLoop(run[k])
  }

  /** The loop waits after a tick that freed nothing, and goes on at once after one that did. */
  lemma {:induction false} AfterTick(s: Loop, run: seq<Event>, i: nat, j: nat, reaped: bool)
    requires Runs(s, run) && Quiet(run, i, j) && run[i] == TickEnd(reaped) && OfLoop(run[j])
    ensures if reaped then run[j] == TickStart || run[j] == Leave else run[j] == WakeUp || run[j] == TimeOut
    decreases |run|
  {
    var t := Step(s, run[0]);
    if i == 0 {
      StaysAt(t, run[1..], j - 1);
    } else {
      forall k | i - 1 < k < j - 1 ensures !OfLoop(run[1..][k]) {
        assert run[1..][k] == run[k + 1];
      }
      AfterTick(t, run[1..], i - 1, j - 1, reaped);
    }
  }

  /** Notifications and stops do not move the loop. */
  lemma {:induction false} StaysAt(s: Loop, run: seq<Event>, j: nat)
    requires Runs(s, run) && j < |run| && (forall k :: 0 <= k < j ==> !OfLoop(run[k])) && OfLoop(run[j])
    ensures s.place == Top ==> run[j] == TickStart || run[j] == Leave
    ensures s.place == Waiting ==> run[j] == WakeUp || run[j] == TimeOut
    decreases |run|
  {
    if j > 0 {
      assert forall k :: 0 <= k < j - 1 ==> run[1..][k] == run[k + 1];
      StaysAt(Step(s, run[0]), run[1..], j - 1);
    }
  }

  /** It never runs hot: a wait that began with the last one's count ends early only if there was a notification, or
      a stop, in the meantime. */
  lemma {:induction false} WokenOnce(s: Loop, run: seq<Event>, i: nat, j: nat)
    requires Runs(s, run) && i < j < |run| && (run[i] == WakeUp || run[i] == TimeOut) && run[j] == WakeUp
    ensures s.stopped || Stop in run[..j] || exists k :: i < k < j && run[k] == Notify
    decreases |run|
  {
    var t := Step(s, run[0]);
    assert run[..j] == [run[0]] + run[1..][..j - 1];
    if i == 0 {
      var k := WokenBy(t, run[1..], j - 1);
      assert run[k + 1] == run[1..][k];
      assert run[k + 1] in run[..j];
    } else {
      WokenOnce(t, run[1..], i - 1, j - 1);
      if k :| i - 1 < k < j - 1 && run[1..][k] == Notify {
        assert run[k + 1] == Notify;
      }
    }
  }

  /** From a loop that has seen the count. */
  lemma {:induction false} WokenBy(s: Loop, run: seq<Event>, j: nat) returns (k: nat)
    requires Runs(s, run) && j < |run| && run[j] == WakeUp
    ensures s.seen == s.count && !s.stopped ==> k < j && (run[k] == Notify || run[k] == Stop)
    ensures k <= j
    decreases |run|
  {
    k := 0;
    if j > 0 && run[0] != Notify && run[0] != Stop {
      k := WokenBy(Step(s, run[0]), run[1..], j - 1);
      k := k + 1;
    }
  }
}
