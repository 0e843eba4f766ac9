/** The release gate over an append-only event log: what closes a decision, what a decision is bound to, and
    what blocks a release. */
module ReleaseLog {
  import opened Wrappers

  /** An event's type with the payload fields the gate reads. */
  datatype What =
    | Previewed(candidate: Option<string>, digest: Option<string>)
    | Decided(action: string, candidate: Option<string>, digest: Option<string>, actor: string)
    | Rejected(action: string, candidate: Option<string>, digest: Option<string>, why: string)
    | StageEntered(stage: string)
    | CandidateFrozen(candidate: Option<string>)
    | SecurityAssessed(status: string)
    | PrismVerdict(scope: string, verdict: string)
    | GateResult(passed: bool, identity: string, kind: string)
    | Other(name: string)

  datatype Event = Event(no: nat, what: What)

  type Log = seq<Event>

  /** The store numbers the events of a run from 1. */
  ghost predicate Dense(log: Log) {
    forall i :: 0 <= i < |log| ==> log[i].no == i + 1
  }

  /** The last position at which `p` holds, or -1. */
  function LastAt(log: Log, p: What -> bool): (r: int)
    ensures -1 <= r < |log| && (r >= 0 ==> p(log[r].what))
    ensures forall i :: r < i < |log| ==> !p(log[i].what)
  {
    if log == [] then -1
    else if p(log[|log| - 1].what) then |log| - 1
    else LastAt(log[..|log| - 1], p)
  }

  predicate IsPreview(w: What) { w.Previewed? }

  predicate IsDecision(w: What) { w.Decided? }

  /** `_latest_release_preview`: the active preview. */
  function LatestPreview(log: Log): (r: Option<Event>)
    ensures r.Some? ==> r.value.what.Previewed?
  {
    var at := LastAt(log, IsPreview);
    if at < 0 then None else Some(log[at])
  }

  /** `_is_decision_closed`: the last decision has a higher number than the preview. */
  function DecisionClosed(log: Log, preview: Event): bool {
    var at := LastAt(log, IsDecision);
    at >= 0 && log[at].no > preview.no
  }

  /** Closed means: something was decided since the active preview. */
  lemma ClosedMeansDecided(log: Log)
    requires Dense(log) && LatestPreview(log).Some?
    ensures DecisionClosed(log, LatestPreview(log).value)
      <==> exists i :: LastAt(log, IsPreview) < i < |log| && log[i].what.Decided?
  {
    var p, d := LastAt(log, IsPreview), LastAt(log, IsDecision);
    if d > p {
      assert IsDecision(log[d].what);
    } else {
      forall i | p < i < |log| ensures !log[i].what.Decided? {
        assert !IsDecision(log[i].what);
      }
    }
  }

  // ----- the three-way gate -----

  datatype Request = Preview | Act(action: string, actor: string)

  /** What the authorization says of the request: nothing against it, or the reason it is rejected for; and
      whether a registered known issue is missing from the preview. */
  datatype Authorization = Authorization(refusal: Option<string>, unlisted: bool)

  datatype Outcome = NoPreview | Shown | Closed | Refused | Recorded

  class Store {
    var events: Log

    constructor ()
      ensures events == []
    {
      events := [];
    }

    method Append(what: What)
      modifies this
      ensures events == old(events) + [Event(|old(events)| + 1, what)]
    {
      events := events + [Event(|events| + 1, what)];
    }
  }

  /** Why the gate turns the action down, if it does. */
  function Objection(action: string, authorization: Authorization): Option<string> {
    if authorization.refusal.Some? then authorization.refusal
    else if action == "release" && authorization.unlisted then Some("known_issue_not_listed")
    else None
  }

  /** The events the gate adds for a request. */
  function Added(log: Log, request: Request, authorization: Authorization): seq<What> {
    var preview := LatestPreview(log);
    if preview.None? || request.Preview? || DecisionClosed(log, preview.value) then []
    else
      var p := preview.value.what;
      var objection := Objection(request.action, authorization);
      if objection.Some? then [Rejected(request.action, p.candidate, p.digest, objection.value)]
      else [Decided(request.action, p.candidate, p.digest, request.actor)]
  }

  function Numbered(log: Log, added: seq<What>): Log
    decreases |added|
  {
    if added == [] then log else Numbered(log + [Event(|log| + 1, added[0])], added[1..])
  }

  /** `_decide_release`: the rejection gates, then the decision. */
  method DecideRelease(store: Store, preview: Event, request: Request, authorization: Authorization)
    returns (recorded: bool)
    requires request.Act? && preview.what.Previewed?
    modifies store
    ensures recorded <==> Objection(request.action, authorization).None?
    ensures store.events == old(store.events) + [Event(|old(store.events)| + 1,
      if recorded then Decided(request.action, preview.what.candidate, preview.what.digest, request.actor)
      else Rejected(request.action, preview.what.candidate, preview.what.digest,
                    Objection(request.action, authorization).value))]
  {
    var payload := preview.what;
    if authorization.refusal.Some? {
      store.Append(Rejected(request.action, payload.candidate, payload.digest, authorization.refusal.value));
      return false;
    }
    if request.action == "release" && authorization.unlisted {
      store.Append(Rejected(request.action, payload.candidate, payload.digest, "known_issue_not_listed"));
      return false;
    }
    store.Append(Decided(request.action, payload.candidate, payload.digest, request.actor));
    return true;
  }

  lemma PreviewExists(log: Log)
    ensures LatestPreview(log).None? <==> forall i :: 0 <= i < |log| ==> !log[i].what.Previewed?
  {
    forall i | 0 <= i < |log| ensures IsPreview(log[i].what) <==> log[i].what.Previewed? {
    }
    var at := LastAt(log, IsPreview);
    if at < 0 {
      forall i | 0 <= i < |log| ensures !log[i].what.Previewed? {
        assert !IsPreview(log[i].what);
      }
    }
  }

  /** `cmd_release`, under the writer lock. */
  method CmdRelease(store: Store, request: Request, authorization: Authorization) returns (outcome: Outcome)
    modifies store
    ensures store.events == Numbered(old(store.events), Added(old(store.events), request, authorization))
    ensures outcome.Recorded? <==>
      |store.events| > |old(store.events)| && store.events[|old(store.events)|].what.Decided?
    ensures outcome.Refused? <==>
      |store.events| > |old(store.events)| && store.events[|old(store.events)|].what.Rejected?
    ensures outcome.NoPreview? <==> forall i :: 0 <= i < |old(store.events)| ==> !old(store.events)[i].what.Previewed?
    ensures outcome.Shown? <==> request.Preview? && !outcome.NoPreview?
  {
    PreviewExists(store.events);
    var preview := LatestPreview(store.events);
    if preview.None? {
      return NoPreview;
    }
    if request.Preview? {
      return Shown;
    }
    if DecisionClosed(store.events, preview.value) {
      return Closed;
    }
    var recorded := DecideRelease(store, preview.value, request, authorization);
    outcome := if recorded then Recorded else Refused;
  }

  // ----- runs -----

  /** Anybody may append anything but a decision. */
  datatype Step = Release(request: Request, authorization: Authorization) | Append(what: What)

  predicate Allowed(step: Step) {
    step.Append? ==> !step.what.Decided?
  }

  function Apply(log: Log, step: Step): Log {
    match step
    case Release(request, authorization) => Numbered(log, Added(log, request, authorization))
    case Append(what) => log + [Event(|log| + 1, what)]
  }

  function Grown(steps: seq<Step>): Log {
    if steps == [] then [] else Apply(Grown(steps[..|steps| - 1]), steps[|steps| - 1])
  }

  predicate AllAllowed(steps: seq<Step>) {
    forall i :: 0 <= i < |steps| ==> Allowed(steps[i])
  }

  /** Between two decisions there is a preview. */
  ghost predicate OncePerPreview(log: Log) {
    forall i, j :: 0 <= i < j < |log| && log[i].what.Decided? && log[j].what.Decided? ==>
      exists k :: i < k < j && log[k].what.Previewed?
  }

  /** Position `k` holds the preview that is active at position `i`. */
  ghost predicate ActiveAt(log: Log, k: nat, i: nat) {
    k < i < |log| && log[k].what.Previewed? && forall m :: k < m < i ==> !log[m].what.Previewed?
  }

  /** Every decision carries the candidate and the digest of the preview active when it was taken. */
  ghost predicate BoundToPreview(log: Log) {
    forall i: nat :: i < |log| && log[i].what.Decided? ==>
      exists k: nat ::
        ActiveAt(log, k, i)
        && log[i].what.candidate == log[k].what.candidate && log[i].what.digest == log[k].what.digest
  }

  ghost predicate Sound(log: Log) {
    Dense(log) && OncePerPreview(log) && BoundToPreview(log)
  }

  lemma ActiveKept(log: Log, e: Event, k: nat, i: nat)
    requires ActiveAt(log, k, i)
    ensures ActiveAt(log + [e], k, i)
  {
  }

  /** Appending an event keeps the log sound, provided a decision follows a preview that none has followed
      and copies it. */
  lemma AppendSound(log: Log, e: Event)
    requires Sound(log) && e.no == |log| + 1
    requires e.what.Decided? ==>
      var k := LastAt(log, IsPreview);
      && k >= 0 && e.what.candidate == log[k].what.candidate && e.what.digest == log[k].what.digest
      && forall i :: k < i < |log| ==> !log[i].what.Decided?
    ensures Sound(log + [e])
  {
    var now, n := log + [e], |log|;
    assert forall i :: 0 <= i < n ==> now[i] == log[i];
    var p := LastAt(log, IsPreview);
    forall i, j | 0 <= i < j < |now| && now[i].what.Decided? && now[j].what.Decided?
      ensures exists k :: i < k < j && now[k].what.Previewed?
    {
      if j < n {
        var k :| i < k < j && log[k].what.Previewed?;
        assert now[k].what.Previewed?;
      } else {
        assert log[i].what.Decided? && i != p;
        assert now[p].what.Previewed?;
      }
    }
    forall i: nat | i < |now| && now[i].what.Decided?
      ensures exists k: nat ::
        ActiveAt(now, k, i)
        && now[i].what.candidate == now[k].what.candidate && now[i].what.digest == now[k].what.digest
    {
      if i < n {
        var k: nat :| ActiveAt(log, k, i)
          && log[i].what.candidate == log[k].what.candidate && log[i].what.digest == log[k].what.digest;
        ActiveKept(log, e, k, i);
      } else {
        forall m | p < m < n ensures !now[m].what.Previewed? {
          assert !IsPreview(log[m].what);
        }
        assert ActiveAt(now, p, n);
      }
    }
  }

  lemma ReleaseSound(log: Log, request: Request, authorization: Authorization)
    requires Sound(log)
    ensures Sound(Numbered(log, Added(log, request, authorization)))
  {
    var added := Added(log, request, authorization);
    if added != [] {
      ClosedMeansDecided(log);
      AppendSound(log, Event(|log| + 1, added[0]));
      assert added[1..] == [];
    }
  }

  /** In every log grown by release commands and any other events, at most one decision lies between two
      previews and each carries the candidate and digest of its preview. */
  lemma {:induction false} GrownSound(steps: seq<Step>)
    requires AllAllowed(steps)
    ensures Sound(Grown(steps))
  {
    if steps != [] {
      var front, step := steps[..|steps| - 1], steps[|steps| - 1];
      GrownSound(front);
      assert Allowed(step);
      match step {
        case Release(request, authorization) => ReleaseSound(Grown(front), request, authorization);
        case Append(what) => AppendSound(Grown(front), Event(|Grown(front)| + 1, what));
      }
    }
  }

  /** The gate reopens with the next preview: right after it, an unobjected action is recorded. */
  lemma PreviewReopens(log: Log, preview: What, request: Request, authorization: Authorization)
    requires Dense(log) && preview.Previewed? && request.Act?
    requires Objection(request.action, authorization).None?
    ensures Added(log + [Event(|log| + 1, preview)], request, authorization)
      == [Decided(request.action, preview.candidate, preview.digest, request.actor)]
  {
    var now := log + [Event(|log| + 1, preview)];
    assert Dense(now);
    assert IsPreview(now[|log|].what) && LastAt(now, IsPreview) == |log|;
    ClosedMeansDecided(now);
  }

  // ----- what blocks a release -----

  /** A repaired candidate, or entry to the verify stage, opens a new window. */
  predicate Opens(w: What) {
    || (w.StageEntered? && w.stage == "M-VERIFY")
    || (w.CandidateFrozen? && w.candidate.Some? && w.candidate.value != "")
  }

  function Window(log: Log): Log {
    log[LastAt(log, Opens) + 1..]
  }

  method VerifyEventsWindow(log: Log) returns (window: Log)
    ensures window == Window(log)
  {
    var start := -1;
    for i := 0 to |log|
      invariant start == LastAt(log[..i], Opens)
    {
      assert log[..i + 1][..i] == log[..i];
      if Opens(log[i].what) {
        start := i;
      }
    }
    assert log[..|log|] == log;
    window := if start >= 0 then log[start + 1..] else log;
  }

  function GateKey(w: What): string
    requires w.GateResult?
  {
    if w.identity != "" then w.identity else if w.kind != "" then w.kind else "local_gate"
  }

  predicate IsGate(w: What, key: string) {
    w.GateResult? && GateKey(w) == key
  }

  /** The latest result of each gate. */
  method LatestGateResults(log: Log) returns (latest: map<string, bool>)
    ensures forall key :: key in latest <==> LastAt(log, w => IsGate(w, key)) >= 0
    ensures forall key :: key in latest ==>
      latest[key] == log[LastAt(log, w => IsGate(w, key))].what.passed
  {
    latest := map[];
    for i := 0 to |log|
      invariant forall key :: key in latest <==> LastAt(log[..i], w => IsGate(w, key)) >= 0
      invariant forall key :: key in latest ==>
        latest[key] == log[LastAt(log[..i], w => IsGate(w, key))].what.passed
    {
      assert log[..i + 1][..i] == log[..i];
      var w := log[i].what;
      if w.GateResult? {
        latest := latest[GateKey(w) := w.passed];
      }
    }
    assert log[..|log|] == log;
  }

  datatype Kind = Security | Final | Gate(key: string)

  /** What an event says for or against a release. */
  function Evidence(w: What): Option<(Kind, bool)> {
    match w
    case SecurityAssessed(status) => Some((Security, status == "passed"))
    case PrismVerdict(scope, verdict) => if scope == "verify_final" then Some((Final, verdict == "pass")) else None
    case GateResult(passed, _, _) => Some((Gate(GateKey(w)), passed))
    case _ => None
  }

  predicate Says(w: What, kind: Kind, good: bool) {
    Evidence(w) == Some((kind, good))
  }

  /** Whatever of this kind speaks against the release is followed by better evidence of the same kind. */
  ghost predicate Superseded(window: Log, kind: Kind) {
    forall i :: 0 <= i < |window| && Says(window[i].what, kind, false) ==>
      exists j :: i < j < |window| && Says(window[j].what, kind, true)
  }

  ghost predicate HasEvidence(window: Log) {
    exists i :: 0 <= i < |window| && Evidence(window[i].what).Some?
  }

  /** There is evidence, and nothing speaks against the release that was not made good. */
  ghost predicate Authorized(window: Log) {
    HasEvidence(window) && forall kind :: Superseded(window, kind)
  }

  predicate IsSecurity(w: What) { w.SecurityAssessed? }

  predicate IsFinal(w: What) { w.PrismVerdict? && w.scope == "verify_final" }

  predicate IsOf(w: What, kind: Kind) {
    match kind
    case Security => IsSecurity(w)
    case Final => IsFinal(w)
    case Gate(key) => IsGate(w, key)
  }

  lemma OfKind(w: What, kind: Kind)
    ensures IsOf(w, kind) <==> Says(w, kind, true) || Says(w, kind, false)
    ensures Evidence(w).Some? <==> exists k :: IsOf(w, k)
  {
    if Evidence(w).Some? { assert IsOf(w, Evidence(w).value.0); }
  }

  /** The last word of a kind of evidence. */
  function LastOf(log: Log, kind: Kind): int {
    match kind
    case Security => LastAt(log, IsSecurity)
    case Final => LastAt(log, IsFinal)
    case Gate(key) => LastAt(log, w => IsGate(w, key))
  }

  lemma LastOfIsLast(log: Log, kind: Kind)
    ensures -1 <= LastOf(log, kind) < |log|
    ensures LastOf(log, kind) >= 0 ==> IsOf(log[LastOf(log, kind)].what, kind)
    ensures forall i :: LastOf(log, kind) < i < |log| ==> !IsOf(log[i].what, kind)
  {
  }

  ghost predicate LastWordGood(window: Log, kind: Kind) {
    var d := LastOf(window, kind);
    d >= 0 ==> d < |window| && Says(window[d].what, kind, true)
  }

  /** Of each kind the last word decides. */
  lemma LastWordDecides(window: Log, kind: Kind)
    ensures LastWordGood(window, kind) <==> Superseded(window, kind)
  {
    hide LastOf, Evidence, IsOf;
    LastOfIsLast(window, kind);
    forall i | 0 <= i < |window|
      ensures IsOf(window[i].what, kind) <==> Says(window[i].what, kind, true) || Says(window[i].what, kind, false)
    {
      OfKind(window[i].what, kind);
    }
  }

  /** The gate blocks exactly when the current window does not authorize a release: a bad last word of any
      kind, or no evidence at all. */
  method ReleaseGateBlocked(log: Log) returns (blocked: bool)
    ensures blocked <==> !Authorized(Window(log))
  {
    hide Authorized, Window;
    var window := VerifyEventsWindow(log);
    var gates := LatestGateResults(window);
    WhatAuthorizes(window, gates);
    var security := LastAt(window, IsSecurity);
    if security >= 0 && window[security].what.status != "passed" {
      return true;
    }
    var final := LastAt(window, IsFinal);
    if final >= 0 && window[final].what.verdict != "pass" {
      return true;
    }
    var failed := exists key :: key in gates && !gates[key];
    var gateEvidence := security >= 0 || final >= 0 || exists key :: key in gates && gates[key];
    blocked := !gateEvidence || failed;
  }

  lemma WhatAuthorizes(window: Log, gates: map<string, bool>)
    requires forall key :: key in gates <==> LastAt(window, w => IsGate(w, key)) >= 0
    requires forall key :: key in gates ==> gates[key] == window[LastAt(window, w => IsGate(w, key))].what.passed
    ensures var security, final := LastAt(window, IsSecurity), LastAt(window, IsFinal);
      Authorized(window) <==>
        && (security >= 0 ==> window[security].what.status == "passed")
        && (final >= 0 ==> window[final].what.verdict == "pass")
        && !(exists key :: key in gates && !gates[key])
        && (security >= 0 || final >= 0 || exists key :: key in gates)
  {
    hide HasEvidence, Superseded, LastWordGood;
    LastWordsDecide(window);
    SecurityWord(window);
    FinalWord(window);
    GateWords(window, gates);
    SomeEvidence(window, gates);
    assert (forall key :: LastWordGood(window, Gate(key))) <==> !exists key :: key in gates && !gates[key];
  }

  lemma LastWordsDecide(window: Log)
    ensures Authorized(window) <==>
      && HasEvidence(window)
      && LastWordGood(window, Security)
      && LastWordGood(window, Final)
      && forall key :: LastWordGood(window, Gate(key))
  {
    hide HasEvidence, Superseded, LastWordGood;
    forall kind ensures LastWordGood(window, kind) <==> Superseded(window, kind) {
      LastWordDecides(window, kind);
    }
    if LastWordGood(window, Security) && LastWordGood(window, Final) && forall key :: LastWordGood(window, Gate(key)) {
      forall kind ensures LastWordGood(window, kind) {
        if kind.Gate? { assert LastWordGood(window, Gate(kind.key)); }
      }
    }
  }

  lemma SecurityWord(window: Log)
    ensures var d := LastAt(window, IsSecurity);
      LastWordGood(window, Security) <==> (d >= 0 ==> window[d].what.status == "passed")
  {
  }

  lemma FinalWord(window: Log)
    ensures var d := LastAt(window, IsFinal);
      LastWordGood(window, Final) <==> (d >= 0 ==> window[d].what.verdict == "pass")
  {
  }

  lemma GateWords(window: Log, gates: map<string, bool>)
    requires forall key :: key in gates <==> LastAt(window, w => IsGate(w, key)) >= 0
    requires forall key :: key in gates ==> gates[key] == window[LastAt(window, w => IsGate(w, key))].what.passed
    ensures forall key :: LastWordGood(window, Gate(key)) <==> (key in gates ==> gates[key])
  {
    forall key ensures LastWordGood(window, Gate(key)) <==> (key in gates ==> gates[key]) {
      var d := LastAt(window, w => IsGate(w, key));
      assert LastOf(window, Gate(key)) == d;
    }
  }

  lemma SomeEvidence(window: Log, gates: map<string, bool>)
    requires forall key :: key in gates <==> LastAt(window, w => IsGate(w, key)) >= 0
    ensures HasEvidence(window) <==>
      LastAt(window, IsSecurity) >= 0 || LastAt(window, IsFinal) >= 0 || exists key :: key in gates
  {
    hide Evidence;
    if HasEvidence(window) {
      var i :| 0 <= i < |window| && Evidence(window[i].what).Some?;
      OfKind(window[i].what, Security);
      var kind :| IsOf(window[i].what, kind);
      LastOfIsLast(window, kind);
      assert LastOf(window, kind) >= 0;
      if kind.Gate? { assert kind.key in gates; }
    }
    forall kind | LastOf(window, kind) >= 0 ensures HasEvidence(window) {
      LastOfIsLast(window, kind);
      OfKind(window[LastOf(window, kind)].what, kind);
    }
    assert LastOf(window, Security) == LastAt(window, IsSecurity);
    assert LastOf(window, Final) == LastAt(window, IsFinal);
    if key :| key in gates {
      assert LastOf(window, Gate(key)) >= 0;
    }
  }

  // ----- a freeze forgets -----

  /** The same events under other numbers. */
  ghost predicate SameWhats(s: Log, t: Log) {
    |s| == |t| && forall i :: 0 <= i < |s| ==> s[i].what == t[i].what
  }

  lemma WindowOfTail(a: Log, s: Log)
    requires s != [] && Opens(s[0].what)
    ensures Window(a + s) == Window(s)
  {
    var d := LastAt(s, Opens);
    assert d >= 0;
    assert forall i :: 0 <= i < |s| ==> (a + s)[|a| + i] == s[i];
    assert Opens((a + s)[|a| + d].what);
    assert forall i :: |a| <= i < |a| + |s| ==> (a + s)[i] == s[i - |a|];
    assert LastAt(a + s, Opens) == |a| + d;
  }

  lemma WindowOfSame(s: Log, t: Log)
    requires SameWhats(s, t)
    ensures SameWhats(Window(s), Window(t))
  {
    var d, e := LastAt(s, Opens), LastAt(t, Opens);
    if d >= 0 { assert Opens(t[d].what); }
    if e >= 0 { assert Opens(s[e].what); }
    assert d == e;
  }

  /** The gate's verdict after a freeze does not depend on what happened before it. */
  lemma FreezeForgets(a: Log, b: Log, s: Log, t: Log)
    requires s != [] && Opens(s[0].what) && SameWhats(s, t)
    ensures Authorized(Window(a + s)) <==> Authorized(Window(b + t))
  {
    hide Window, Authorized;
    WindowOfTail(a, s);
    WindowOfTail(b, t);
    WindowOfSame(s, t);
    if Authorized(Window(s)) { SameVerdict(Window(s), Window(t)); }
    if Authorized(Window(t)) { SameVerdict(Window(t), Window(s)); }
  }

  lemma SameVerdict(v: Log, w: Log)
    requires SameWhats(v, w) && Authorized(v)
    ensures Authorized(w)
  {
    hide Evidence;
    var i :| 0 <= i < |v| && Evidence(v[i].what).Some?;
    assert Evidence(w[i].what).Some?;
    forall kind ensures Superseded(w, kind) {
      assert Superseded(v, kind);
      forall i | 0 <= i < |w| && Says(w[i].what, kind, false)
        ensures exists j :: i < j < |w| && Says(w[j].what, kind, true)
      {
        assert Says(v[i].what, kind, false);
        var j :| i < j < |v| && Says(v[j].what, kind, true);
        assert Says(w[j].what, kind, true);
      }
    }
  }

  // ----- the verdicts, in terms of the events -----

  /** Position `k` holds the last preview, and nothing was decided after it. */
  predicate OpenPreview(log: Log, k: nat) {
    k < |log| && log[k].what.Previewed?
    && forall m :: k < m < |log| ==> !log[m].what.Previewed? && !log[m].what.Decided?
  }

  /** Exactly what a request adds to the log: nothing without an open preview or for a preview; otherwise a
      rejection, for the reason given or for a known issue that a release does not list, or else the decision, with
      the preview's candidate and digest. */
  lemma RequestExactly(log: Log, request: Request, authorization: Authorization)
    requires Dense(log)
    ensures request.Preview? || (forall k: nat :: !OpenPreview(log, k)) ==> Added(log, request, authorization) == []
    ensures forall k: nat :: request.Act? && OpenPreview(log, k) ==>
      Added(log, request, authorization) == [
        if authorization.refusal.Some?
        then Rejected(request.action, log[k].what.candidate, log[k].what.digest, authorization.refusal.value)
        else if request.action == "release" && authorization.unlisted
        then Rejected(request.action, log[k].what.candidate, log[k].what.digest, "known_issue_not_listed")
        else Decided(request.action, log[k].what.candidate, log[k].what.digest, request.actor)]
  {
    var p := LastAt(log, IsPreview);
    forall m | p < m < |log| ensures !log[m].what.Previewed? {
      assert !IsPreview(log[m].what);
    }
    if p >= 0 { ClosedMeansDecided(log); }
    if p >= 0 && !DecisionClosed(log, log[p]) { assert OpenPreview(log, p); }
  }

  /** Exactly which events count: those after the last entry to `M-VERIFY` and the last freeze of a candidate. */
  lemma WindowExactly(log: Log)
    ensures exists k :: 0 <= k <= |log| && Window(log) == log[k..] && WindowFrom(log, k)
  {
    var k := LastAt(log, Opens) + 1;
    forall i | k <= i < |log| ensures !Opens(log[i].what) {
    }
    assert WindowFrom(log, k);
  }

  predicate Opener(w: What) {
    match w
    case StageEntered(stage) => stage == "M-VERIFY"
    case CandidateFrozen(Some(candidate)) => candidate != ""
    case _ => false
  }

  /** No opener from `k` on, and one right before it unless it is the beginning. */
  predicate WindowFrom(log: Log, k: nat) {
    k <= |log| && (k > 0 ==> Opener(log[k - 1].what)) && forall i :: k <= i < |log| ==> !Opener(log[i].what)
  }

  /** The event speaks against the release. */
  predicate Bad(w: What) {
    match w
    case SecurityAssessed(status) => status != "passed"
    case PrismVerdict(scope, verdict) => scope == "verify_final" && verdict != "pass"
    case GateResult(passed, _, _) => !passed
    case _ => false
  }

  /** The later event `v` makes the event `w` good: the same assessment, the same final verdict, or the same gate,
      passed. */
  predicate MakesGood(v: What, w: What) {
    match w
    case SecurityAssessed(_) => v == SecurityAssessed("passed")
    case PrismVerdict(_, _) => v == PrismVerdict("verify_final", "pass")
    case GateResult(_, identity, kind) => v.GateResult? && v.passed && SameGate(v.identity, v.kind, identity, kind)
    case _ => false
  }

  /** Gates are told apart by identity; without one by kind; and those without either are one gate. */
  predicate SameGate(identity: string, kind: string, identity': string, kind': string) {
    var a := if identity == "" then kind else identity;
    var b := if identity' == "" then kind' else identity';
    a == b || (a in {"", "local_gate"} && b in {"", "local_gate"})
  }

  predicate Counts(w: What) {
    w.SecurityAssessed? || (w.PrismVerdict? && w.scope == "verify_final") || w.GateResult?
  }

  /** Exactly when a window authorizes a release: something in it counts, and everything that speaks against the
      release is made good by a later event. */
  lemma AuthorizedExactly(window: Log)
    ensures Authorized(window) <==>
      && (exists i :: 0 <= i < |window| && Counts(window[i].what))
      && forall i :: 0 <= i < |window| && Bad(window[i].what) ==>
           exists j :: i < j < |window| && MakesGood(window[j].what, window[i].what)
  {
    hide Evidence;
    forall w ensures Counts(w) <==> Evidence(w).Some? {
      CountsIs(w);
    }
    if Authorized(window) {
      forall i | 0 <= i < |window| && Bad(window[i].what)
        ensures exists j :: i < j < |window| && MakesGood(window[j].what, window[i].what)
      {
        var kind := BadSays(window[i].what);
        assert Superseded(window, kind);
        var j :| i < j < |window| && Says(window[j].what, kind, true);
        GoodSays(window[j].what, window[i].what, kind);
      }
    }
    if forall i :: 0 <= i < |window| && Bad(window[i].what) ==>
         exists j :: i < j < |window| && MakesGood(window[j].what, window[i].what)
    {
      forall kind, i | 0 <= i < |window| && Says(window[i].what, kind, false)
        ensures exists j :: i < j < |window| && Says(window[j].what, kind, true)
      {
        SaysBad(window[i].what, kind);
        var j :| i < j < |window| && MakesGood(window[j].what, window[i].what);
        GoodSays(window[j].what, window[i].what, kind);
      }
    }
  }

  lemma CountsIs(w: What)
    ensures Counts(w) <==> Evidence(w).Some?
  {
  }

  lemma BadSays(w: What) returns (kind: Kind)
    requires Bad(w)
    ensures Says(w, kind, false)
  {
    kind := Evidence(w).value.0;
  }

  lemma SaysBad(w: What, kind: Kind)
    requires Says(w, kind, false)
    ensures Bad(w)
  {
  }

  lemma GoodSays(v: What, w: What, kind: Kind)
    requires Says(w, kind, false)
    ensures MakesGood(v, w) <==> Says(v, kind, true)
  {
  }
}
