/** The locked container run: an interruptible protocol around Docker commands, and its cleanup. */
module Containers {
  import opened Seqs

  datatype Resource = Agent | Gateway | Volume

  /** What is awaited: Docker commands, the preflight checks as one, and the agent's process. */
  datatype Command =
    | Preflight | CreateVolume | RunGateway | SpawnAgent | WaitAgent | TryWait
    | Info | Inspect(resource: Resource) | Remove(resource: Resource) | StopGateway

  /** An exit code (none when killed by a signal), a process still running, or an I/O error. */
  datatype Reply = Exited(code: Option<nat>) | Running | Broken

  predicate Succeeded(reply: Reply) { reply == Exited(Some(0)) }

  datatype Error = SessionCollision | Interrupted | DockerUnavailable | CleanupFailed | DockerOperation(what: string)

  datatype Result<+T> = Ok(value: T) | Err(error: Error)

  const LISTEN := DockerOperation("listen for an interrupt")

  /**
   * One finished await: the command, its reply, whether the daemon was up and what existed then,
   * whether the interrupt was polled meanwhile, and how it completed if it did.
   */
  datatype Event = Event(
    command: Command, reply: Reply, up: bool, live: set<Resource>, polled: bool, signal: Option<bool>)

  /** The environment's part of an event; `signal` takes effect only when the interrupt is polled. */
  datatype Turn = Turn(reply: Reply, up: bool, live: set<Resource>, signal: Option<bool>)

  // ---- What a log shows -------------------------------------------------------------------

  /** Once the interrupt has completed it is not polled again. */
  ghost predicate WellPolled(log: seq<Event>) {
    && (forall i, j :: 0 <= i < j < |log| && log[i].signal.Some? ==> !log[j].polled)
    && (forall i :: 0 <= i < |log| && log[i].signal.Some? ==> log[i].polled)
  }

  ghost predicate Fired(log: seq<Event>) { exists i :: 0 <= i < |log| && log[i].signal.Some? }

  /** How the interrupt completed, if it has. */
  ghost function SignalOf(log: seq<Event>): Option<bool> {
    if log == [] then None else Earlier(SignalOf(log[..|log| - 1]), log[|log| - 1].signal)
  }

  function Earlier(first: Option<bool>, second: Option<bool>): Option<bool> { if first.Some? then first else second }

  /** `WellPolled`, told from the log's end. */
  ghost predicate Watched(log: seq<Event>) {
    log == [] ||
    var e, before := log[|log| - 1], log[..|log| - 1];
    Watched(before) && (e.polled ==> SignalOf(before).None?) && (e.signal.Some? ==> e.polled)
  }

  lemma WatchedMore(log: seq<Event>, e: Event)
    requires Watched(log) && (e.polled ==> SignalOf(log).None?) && (e.signal.Some? ==> e.polled)
    ensures Watched(log + [e]) && SignalOf(log + [e]) == Earlier(SignalOf(log), e.signal)
  {
    assert (log + [e])[..|log|] == log;
  }

  lemma {:induction false} SignalOfFired(log: seq<Event>)
    ensures SignalOf(log).Some? <==> Fired(log)
  {
    if log != [] {
      var before := log[..|log| - 1];
      SignalOfFired(before);
      if Fired(before) {
        var i :| 0 <= i < |before| && before[i].signal.Some?;
        assert log[i].signal.Some?;
      }
      if Fired(log) && !log[|log| - 1].signal.Some? {
        var i :| 0 <= i < |log| && log[i].signal.Some?;
        assert before[i].signal.Some?;
      }
    }
  }

  lemma {:induction false} WatchedIsWellPolled(log: seq<Event>)
    requires Watched(log)
    ensures WellPolled(log)
  {
    if log != [] {
      var before := log[..|log| - 1];
      WatchedIsWellPolled(before);
      SignalOfFired(before);
      assert forall i :: 0 <= i < |before| ==> log[i] == before[i];
    }
  }

  ghost predicate Attempted(log: seq<Event>) { exists i :: 0 <= i < |log| && log[i].command == CreateVolume }

  predicate IsCleanup(c: Command) { c.Info? || c.Inspect? || c.Remove? || c.StopGateway? }

  ghost predicate OnlyCleanup(log: seq<Event>, k: nat) { forall i :: k <= i < |log| ==> IsCleanup(log[i].command) }

  /** From `k` on the log is a cleanup: it starts at the daemon check and creates nothing. */
  ghost predicate CleanupFrom(log: seq<Event>, k: nat) { k < |log| && log[k].command == Info && OnlyCleanup(log, k) }

  /** A cleanup step that did not fail; an inspection may report that nothing was found. */
  predicate Good(e: Event) { if e.command.Inspect? then !e.reply.Broken? else Succeeded(e.reply) }

  ghost predicate CleanFrom(log: seq<Event>, k: nat) { forall i :: k <= i < |log| ==> Good(log[i]) }

  ghost predicate AllGood(log: seq<Event>) { CleanFrom(log, 0) }

  // ---- A truthful Docker ------------------------------------------------------------------

  /** The agent's `docker run` process was started and has not been seen to exit. */
  ghost predicate ChildRuns(log: seq<Event>) {
    if log == [] then false
    else
      var e, before := log[|log| - 1], log[..|log| - 1];
      match e.command
      case SpawnAgent => !e.reply.Broken?
      case WaitAgent => ChildRuns(before) && !(e.signal.None? && e.reply.Exited?)
      case TryWait => ChildRuns(before) && !e.reply.Exited?
      case _ => ChildRuns(before)
  }

  ghost function LiveAfter(start: set<Resource>, log: seq<Event>): set<Resource> {
    if log == [] then start else log[|log| - 1].live
  }

  ghost function Creates(c: Command): set<Resource> {
    match c case CreateVolume => {Volume} case RunGateway => {Gateway} case SpawnAgent => {Agent} case _ => {}
  }

  /** An inspection that was answered, but without success. */
  predicate NotFound(e: Event) { e.command.Inspect? && !Succeeded(e.reply) && !e.reply.Broken? }

  /** Nothing appears unasked, removal removes, inspection by a daemon that is up tells the truth. */
  ghost predicate Honest(before: set<Resource>, childRuns: bool, e: Event) {
    && e.live <= before + Creates(e.command) + (if childRuns then {Agent} else {})
    && (e.command.Remove? && Succeeded(e.reply) ==> e.command.resource !in e.live)
    && (e.command.Inspect? && NotFound(e) && e.up ==> e.command.resource !in before)
    && (e.command.Info? && Succeeded(e.reply) ==> e.up)
  }

  ghost predicate AllHonest(start: set<Resource>, log: seq<Event>) {
    log == [] ||
    var before := log[..|log| - 1];
    AllHonest(start, before) && Honest(LiveAfter(start, before), ChildRuns(before), log[|log| - 1])
  }

  /** No resource was reported missing by a daemon that was down: the answer its successor then vouches for. */
  ghost predicate NoFalseAbsence(log: seq<Event>, k: nat) { forall i :: k <= i < |log| && NotFound(log[i]) ==> log[i].up }

  lemma {:induction false} CleanupStartsNoChild(log: seq<Event>, k: nat)
    requires k <= |log| && !ChildRuns(log[..k]) && OnlyCleanup(log, k)
    ensures !ChildRuns(log)
    decreases |log|
  {
    if k < |log| {
      var before := log[..|log| - 1];
      assert before[..k] == log[..k];
      CleanupStartsNoChild(before, k);
      assert IsCleanup(log[|log| - 1].command);
    } else {
      assert log[..k] == log;
    }
  }

  /** An event after which `r` is gone: a removal, or an inspection by a daemon that is up. */
  predicate TrulyGone(e: Event, r: Resource) {
    || (e.command == Remove(r) && Succeeded(e.reply))
    || (e.command == Inspect(r) && NotFound(e) && e.up)
  }

  /** What is gone after the child's end is gone from then on. */
  lemma {:induction false} GoneStaysGone(start: set<Resource>, log: seq<Event>, k: nat, i: nat, r: Resource)
    requires AllHonest(start, log) && k <= i < |log| && TrulyGone(log[i], r)
    requires !ChildRuns(log[..k]) && OnlyCleanup(log, k)
    ensures r !in LiveAfter(start, log)
    decreases |log|
  {
    var before, e := log[..|log| - 1], log[|log| - 1];
    assert before[..k] == log[..k];
    CleanupStartsNoChild(before, k);
    assert IsCleanup(e.command);
    if i < |before| {
      assert forall j :: k <= j < |before| ==> before[j] == log[j];
      GoneStaysGone(start, before, k, i, r);
    }
  }

  // ---- Exactly when -----------------------------------------------------------------------

  /** The same commands, replies and daemon states; only what exists may differ. */
  ghost predicate SameAnswers(a: seq<Event>, b: seq<Event>) {
    |a| == |b| && forall i :: 0 <= i < |a| ==> b[i] == a[i].(live := b[i].live)
  }

  /** Whatever existed, if Docker was honest then `r` is gone in the end. */
  ghost predicate SurelyGone(log: seq<Event>, r: Resource) {
    forall start, other :: SameAnswers(log, other) && AllHonest(start, other) ==> r !in LiveAfter(start, other)
  }

  /** A daemon that answers is up. */
  ghost predicate Answering(log: seq<Event>) { forall e <- log :: e.command.Info? && Succeeded(e.reply) ==> e.up }

  ghost function Holding(log: seq<Event>, r: Resource): seq<Event> {
    seq(|log|, i requires 0 <= i < |log| => log[i].(live := {r}))
  }

  lemma HonestHeld(e: Event, r: Resource)
    requires IsCleanup(e.command) && !TrulyGone(e, r) && (e.command.Info? && Succeeded(e.reply) ==> e.up)
    ensures Honest({r}, false, e.(live := {r}))
  {
  }

  lemma {:induction false} HonestHolding(log: seq<Event>, r: Resource)
    requires OnlyCleanup(log, 0) && Answering(log) && forall e <- log :: !TrulyGone(e, r)
    ensures AllHonest({r}, Holding(log, r)) && !ChildRuns(Holding(log, r))
  {
    if log != [] {
      var n := |log| - 1;
      assert log[n] in log && IsCleanup(log[n].command);
      var held := Holding(log, r);
      assert held[..n] == Holding(log[..n], r) && held[n] == log[n].(live := {r});
      HonestHolding(log[..n], r);
      NoneHolding(log[..n], r);
      HonestHeld(log[n], r);
    }
  }

  /** The answers of a cleanup prove that `r` is gone exactly when one of them does. */
  lemma SurelyGoneExactly(log: seq<Event>, r: Resource)
    requires OnlyCleanup(log, 0) && Answering(log)
    ensures SurelyGone(log, r) <==> exists i :: 0 <= i < |log| && TrulyGone(log[i], r)
  {
    if i :| 0 <= i < |log| && TrulyGone(log[i], r) {
      forall start, other: seq<Event> | SameAnswers(log, other) && AllHonest(start, other) ensures r !in LiveAfter(start, other) {
        assert other[..0] == [];
        assert forall j :: 0 <= j < |log| ==> other[j] == log[j].(live := other[j].live) && IsCleanup(log[j].command);
        GoneStaysGone(start, other, 0, i, r);
      }
    } else {
      HonestHolding(log, r);
      NoneHolding(log, r);
      assert SameAnswers(log, Holding(log, r));
    }
  }

  /** A log without events tells nothing: what existed before still does. */
  lemma NoneHolding(log: seq<Event>, r: Resource)
    ensures LiveAfter({r}, Holding(log, r)) == {r}
  {
  }

  /** An event that ends the sweep of a resource. */
  predicate Concludes(e: Event, r: Resource) {
    (e.command == Remove(r) && Succeeded(e.reply)) || (e.command == Inspect(r) && NotFound(e))
  }

  function Conclusions(log: seq<Event>, r: Resource): nat {
    if log == [] then 0 else (if Concludes(log[0], r) then 1 else 0) + Conclusions(log[1..], r)
  }

  lemma {:induction false} ConclusionsConcat(a: seq<Event>, b: seq<Event>, r: Resource)
    ensures Conclusions(a + b, r) == Conclusions(a, r) + Conclusions(b, r)
  {
    if a == [] {
      assert a + b == b;
    } else {
      assert (a + b)[0] == a[0] && (a + b)[1..] == a[1..] + b;
      ConclusionsConcat(a[1..], b, r);
    }
  }

  lemma {:induction false} ConclusionCounts(log: seq<Event>, i: nat, r: Resource)
    requires i < |log| && Concludes(log[i], r)
    ensures Conclusions(log, r) >= 1
  {
    if i > 0 { ConclusionCounts(log[1..], i - 1, r); }
  }

  lemma {:induction false} FindConclusion(log: seq<Event>, r: Resource) returns (i: nat)
    requires Conclusions(log, r) >= 1
    ensures i < |log| && Concludes(log[i], r)
  {
    if Concludes(log[0], r) {
      i := 0;
    } else {
      i := FindConclusion(log[1..], r);
      i := i + 1;
    }
  }

  lemma {:induction false} OneConclusion(log: seq<Event>, i: nat, j: nat, r: Resource)
    requires i < |log| && j < |log| && Concludes(log[i], r) && Concludes(log[j], r) && Conclusions(log, r) <= 1
    ensures i == j
  {
    if i > 0 && j > 0 {
      OneConclusion(log[1..], i - 1, j - 1, r);
    } else if i > 0 {
      ConclusionCounts(log[1..], i - 1, r);
    } else if j > 0 {
      ConclusionCounts(log[1..], j - 1, r);
    }
  }

  // ---- The world --------------------------------------------------------------------------

  class World {
    var script: seq<Turn>
    var log: seq<Event>
    ghost var fired: Option<bool>

    ghost predicate Valid()
      reads this
    {
      Watched(log) && fired == SignalOf(log)
    }

    constructor (script: seq<Turn>)
      ensures Valid() && log == [] && this.script == script
    {
      this.script, log, fired := script, [], None;
    }

    /**
     * One await, the interrupt polled beside it if `watch`; polling a completed future is an error.
     * Past the end of the script nothing answers any more.
     */
    method Await(command: Command, watch: bool) returns (reply: Reply, signal: Option<bool>)
      requires Valid() && (watch ==> fired.None?)
      modifies this
      ensures Valid() && script == Rest(old(script))
      ensures var e := Happening(command, old(script), watch); reply == e.reply && signal == e.signal && log == old(log) + [e]
      ensures fired == Earlier(old(fired), signal)
    {
      var e := Happening(command, script, watch);
      reply, signal := e.reply, e.signal;
      WatchedMore(log, e);
      log := log + [e];
      script := Rest(script);
      fired := Earlier(fired, signal);
    }
  }

  function Rest(script: seq<Turn>): seq<Turn> { if script == [] then [] else script[1..] }

  /** The event of a command when the script says what happens next. */
  function Happening(command: Command, script: seq<Turn>, watch: bool): Event {
    var turn := if script == [] then Turn(Broken, false, {}, None) else script[0];
    Event(command, turn.reply, turn.up, turn.live, watch, if watch then turn.signal else None)
  }

  // ---- Cleanup ----------------------------------------------------------------------------

  /** What is left of a script after `n` awaits. */
  function Left(script: seq<Turn>, n: nat): seq<Turn> { script[Min(n, |script|)..] }

  /** The first signal among these events. */
  function SignalIn(log: seq<Event>): Option<bool> { if log == [] then None else Earlier(log[0].signal, SignalIn(log[1..])) }

  lemma {:induction false} SignalInBoth(a: seq<Event>, b: seq<Event>)
    ensures SignalIn(a + b) == Earlier(SignalIn(a), SignalIn(b))
  {
    if a == [] {
      assert a + b == b;
    } else {
      assert (a + b)[0] == a[0] && (a + b)[1..] == a[1..] + b;
      SignalInBoth(a[1..], b);
    }
  }

  lemma SignalInOne(e: Event)
    ensures SignalIn([e]) == e.signal
  {
    assert [e][1..] == [];
  }

  /** Whether the interrupt is still polled after these events. */
  predicate Still(watch: bool, log: seq<Event>) { watch && SignalIn(log).None? }

  /** The events of a look for a resource: an inspection, and the daemon check if it was not found. */
  function CheckLog(script: seq<Turn>, r: Resource, watch: bool): seq<Event> {
    var e := Happening(Inspect(r), script, watch);
    if NotFound(e) then [e, Happening(Info, Left(script, 1), Still(watch, [e]))] else [e]
  }

  predicate Finds(log: seq<Event>) { |log| == 1 && Succeeded(log[0].reply) }

  function SweepLog(script: seq<Turn>, r: Resource, watch: bool): seq<Event> {
    var look := CheckLog(script, r, watch);
    if Finds(look) then look + [Happening(Remove(r), Left(script, 1), Still(watch, look))] else look
  }

  function StopLog(script: seq<Turn>, watch: bool): seq<Event> {
    var e := Happening(StopGateway, script, watch);
    [e] + SweepLog(Left(script, 1), Gateway, Still(watch, [e]))
  }

  function GatewayLog(script: seq<Turn>, watch: bool): seq<Event> {
    var look := CheckLog(script, Gateway, watch);
    if Finds(look) then look + StopLog(Left(script, 1), Still(watch, look)) else look
  }

  /** The last answer leaves it open whether a resource exists, which ends the cleanup. */
  predicate Aborts(log: seq<Event>) {
    log != [] && var e := log[|log| - 1]; (e.command.Inspect? && e.reply.Broken?) || (e.command.Info? && !Succeeded(e.reply))
  }

  /** Why an existence was left open: Docker did not answer, or its daemon said no. */
  function AbortError(log: seq<Event>): Error {
    if log != [] && log[|log| - 1].reply.Broken? then DockerUnavailable else CleanupFailed
  }

  function AllLog(script: seq<Turn>, watch: bool): seq<Event> {
    var agent := SweepLog(script, Agent, watch);
    if Aborts(agent) then agent
    else
      var both := agent + GatewayLog(Left(script, |agent|), Still(watch, agent));
      if Aborts(both) then both else both + SweepLog(Left(script, |both|), Volume, Still(watch, both))
  }

  /** The whole log of a cleanup: which command follows which answer. */
  function CleanupLog(script: seq<Turn>, watch: bool): seq<Event> {
    var e := Happening(Info, script, watch);
    if !Succeeded(e.reply) then [e] else [e] + AllLog(Left(script, 1), Still(watch, [e]))
  }

  /** What a cleanup fails with: Docker is unavailable only if it failed to answer after the first daemon check. */
  function CleanupError(log: seq<Event>): Error {
    if |log| > 1 then SweepError(log) else CleanupFailed
  }

  function SweepError(log: seq<Event>): Error { if Aborts(log) then AbortError(log) else CleanupFailed }

  /** A part of a cleanup has been logged, the script has moved on and a signal was noticed. */
  twostate predicate Logged(w: World, part: seq<Event>, new signal: Option<bool>)
    reads w
  {
    && w.Valid() && w.log == old(w.log) + part && w.script == Left(old(w.script), |part|)
    && signal == SignalIn(part) && w.fired == Earlier(old(w.fired), signal)
  }

  lemma AllGoodBoth(a: seq<Event>, b: seq<Event>)
    ensures AllGood(a + b) <==> AllGood(a) && AllGood(b)
  {
    var log := a + b;
    if AllGood(log) {
      forall i | 0 <= i < |a| ensures Good(a[i]) { assert Good(log[i]); }
      forall i | 0 <= i < |b| ensures Good(b[i]) { assert Good(log[|a| + i]); }
    }
  }

  /** Two parts, one after the other, are a part. */
  lemma PartsJoin(log: seq<Event>, script: seq<Turn>, a: seq<Event>, b: seq<Event>)
    ensures log + a + b == log + (a + b) && Left(Left(script, |a|), |b|) == Left(script, |a + b|)
    ensures SignalIn(a + b) == Earlier(SignalIn(a), SignalIn(b))
    ensures AllGood(a + b) <==> AllGood(a) && AllGood(b)
    ensures b != [] ==> Aborts(a + b) == Aborts(b) && AbortError(a + b) == AbortError(b)
  {
    ConcatAssociates(log, a, b);
    LeftTwice(script, |a|, |b|);
    SignalInBoth(a, b);
    AllGoodBoth(a, b);
    LastOfBoth(a, b);
  }

  lemma LeftTwice(script: seq<Turn>, m: nat, n: nat)
    ensures Left(Left(script, m), n) == Left(script, m + n)
  {
  }

  lemma LastOfBoth(a: seq<Event>, b: seq<Event>)
    ensures b != [] ==> Aborts(a + b) == Aborts(b) && AbortError(a + b) == AbortError(b)
  {
    assert b != [] ==> (a + b)[|a + b| - 1] == b[|b| - 1];
  }

  method RunCleanup(w: World, command: Command, watch: bool) returns (done: bool, signal: Option<bool>)
    requires w.Valid() && (watch ==> w.fired.None?) && IsCleanup(command)
    modifies w
    ensures !watch ==> signal.None?
    ensures Logged(w, [Happening(command, old(w.script), watch)], signal)
    ensures done == Succeeded(Happening(command, old(w.script), watch).reply)
  {
    var reply;
    reply, signal := w.Await(command, watch);
    SignalInOne(Happening(command, old(w.script), watch));
    done := Succeeded(reply);
  }

  /** Whether a resource exists; that it does not is believed only of a daemon that answers. */
  method CheckedResourceExists(w: World, r: Resource, watch: bool) returns (found: Result<bool>, signal: Option<bool>)
    requires w.Valid() && (watch ==> w.fired.None?)
    modifies w
    ensures !watch ==> signal.None?
    ensures var part := CheckLog(old(w.script), r, watch);
            && Logged(w, part, signal) && (found.Err? <==> Aborts(part)) && (found.Ok? ==> found.value == Finds(part))
    ensures found.Err? ==> found.error == AbortError(CheckLog(old(w.script), r, watch))
  {
    var reply, later;
    ghost var e := Happening(Inspect(r), w.script, watch);
    SignalInOne(e);
    reply, signal := w.Await(Inspect(r), watch);
    if reply.Broken? { return Err(DockerUnavailable), signal; }
    if Succeeded(reply) { return Ok(true), signal; }
    ghost var next := Happening(Info, w.script, watch && signal.None?);
    reply, later := w.Await(Info, watch && signal.None?);
    signal := Earlier(signal, later);
    PartsJoin(old(w.log), old(w.script), [e], [next]);
    SignalInOne(next);
    assert CheckLog(old(w.script), r, watch) == [e] + [next];
    if reply.Broken? { return Err(DockerUnavailable), signal; }
    if !Succeeded(reply) { return Err(CleanupFailed), signal; }
    return Ok(false), signal;
  }

  /** Removes one resource if it exists; the result says whether every step succeeded. */
  method Sweep(w: World, r: Resource, watch: bool) returns (clean: Result<bool>, signal: Option<bool>)
    requires w.Valid() && (watch ==> w.fired.None?)
    modifies w
    ensures !watch ==> signal.None?
    ensures var part := SweepLog(old(w.script), r, watch);
            && Logged(w, part, signal) && (clean.Err? <==> Aborts(part)) && (clean.Ok? ==> clean.value == AllGood(part))
    ensures clean.Err? ==> clean.error == AbortError(SweepLog(old(w.script), r, watch))
  {
    var found;
    ghost var look := CheckLog(w.script, r, watch);
    found, signal := CheckedResourceExists(w, r, watch);
    if found.Err? { return Err(found.error), signal; }
    if !found.value { return Ok(true), signal; }
    ghost var removal := [Happening(Remove(r), w.script, watch && signal.None?)];
    var done, later := RunCleanup(w, Remove(r), watch && signal.None?);
    signal := Earlier(signal, later);
    PartsJoin(old(w.log), old(w.script), look, removal);
    AllGoodOne(removal[0]);
    AllGoodOne(look[0]);
    assert look == [look[0]];
    return Ok(done), signal;
  }

  lemma AllGoodOne(e: Event)
    ensures AllGood([e]) == Good(e)
  {
    assert [e][0] == e;
  }

  /** The gateway is stopped first; only if it outlives that is it removed. */
  method StopGatewayAndSweep(w: World, watch: bool) returns (clean: Result<bool>, signal: Option<bool>)
    requires w.Valid() && (watch ==> w.fired.None?)
    modifies w
    ensures !watch ==> signal.None?
    ensures var part := StopLog(old(w.script), watch);
            && Logged(w, part, signal) && (clean.Err? <==> Aborts(part)) && (clean.Ok? ==> clean.value == AllGood(part))
    ensures clean.Err? ==> clean.error == AbortError(StopLog(old(w.script), watch))
  {
    var stopped, later;
    ghost var stop := [Happening(StopGateway, w.script, watch)];
    AllGoodOne(stop[0]);
    stopped, signal := RunCleanup(w, StopGateway, watch);
    ghost var rest := SweepLog(w.script, Gateway, watch && signal.None?);
    clean, later := Sweep(w, Gateway, watch && signal.None?);
    signal := Earlier(signal, later);
    PartsJoin(old(w.log), old(w.script), stop, rest);
    if clean.Ok? { clean := Ok(clean.value && stopped); }
  }

  method SweepGateway(w: World, watch: bool) returns (clean: Result<bool>, signal: Option<bool>)
    requires w.Valid() && (watch ==> w.fired.None?)
    modifies w
    ensures !watch ==> signal.None?
    ensures var part := GatewayLog(old(w.script), watch);
            && Logged(w, part, signal) && (clean.Err? <==> Aborts(part)) && (clean.Ok? ==> clean.value == AllGood(part))
    ensures clean.Err? ==> clean.error == AbortError(GatewayLog(old(w.script), watch))
  {
    var found, later;
    ghost var look := CheckLog(w.script, Gateway, watch);
    found, signal := CheckedResourceExists(w, Gateway, watch);
    if found.Err? { return Err(found.error), signal; }
    if !found.value { return Ok(true), signal; }
    AllGoodOne(look[0]);
    assert look == [look[0]];
    ghost var rest := StopLog(w.script, watch && signal.None?);
    clean, later := StopGatewayAndSweep(w, watch && signal.None?);
    signal := Earlier(signal, later);
    PartsJoin(old(w.log), old(w.script), look, rest);
  }

  /** Agent, gateway and volume in turn; a failed removal does not keep the rest from being swept. */
  method SweepAll(w: World, watch: bool) returns (r: Result<()>, signal: Option<bool>)
    requires w.Valid() && (watch ==> w.fired.None?)
    modifies w
    ensures !watch ==> signal.None?
    ensures var part := AllLog(old(w.script), watch); Logged(w, part, signal) && (r.Ok? <==> AllGood(part))
    ensures r.Err? ==> r.error == SweepError(AllLog(old(w.script), watch))
  {
    var agent, gateway, volume, later;
    ghost var a := SweepLog(w.script, Agent, watch);
    agent, signal := Sweep(w, Agent, watch);
    AbortedIsBad(a);
    if agent.Err? { return Err(agent.error), signal; }
    ghost var b := GatewayLog(w.script, watch && signal.None?);
    gateway, later := SweepGateway(w, watch && signal.None?);
    signal := Earlier(signal, later);
    PartsJoin(old(w.log), old(w.script), a, b);
    AbortedIsBad(b);
    if gateway.Err? { return Err(gateway.error), signal; }
    ghost var c := SweepLog(w.script, Volume, watch && signal.None?);
    volume, later := Sweep(w, Volume, watch && signal.None?);
    signal := Earlier(signal, later);
    PartsJoin(old(w.log), old(w.script), a + b, c);
    AbortedIsBad(c);
    if volume.Err? { return Err(volume.error), signal; }
    if !agent.value || !gateway.value || !volume.value { return Err(CleanupFailed), signal; }
    return Ok(()), signal;
  }

  lemma AbortedIsBad(log: seq<Event>)
    ensures Aborts(log) ==> !AllGood(log)
  {
    if Aborts(log) { assert !Good(log[|log| - 1]); }
  }

  /** Issues exactly the commands of `CleanupLog`, and succeeds exactly when every step did. */
  method CleanupSession(w: World, watch: bool) returns (r: Result<()>, signal: Option<bool>)
    requires w.Valid() && (watch ==> w.fired.None?)
    modifies w
    ensures !watch ==> signal.None?
    ensures var part := CleanupLog(old(w.script), watch); Logged(w, part, signal) && (r.Ok? <==> AllGood(part))
    ensures r.Err? ==> r.error == CleanupError(CleanupLog(old(w.script), watch))
  {
    var up, later;
    ghost var e := [Happening(Info, w.script, watch)];
    AllGoodOne(e[0]);
    up, signal := RunCleanup(w, Info, watch);
    if !up { return Err(CleanupFailed), signal; }
    ghost var rest := AllLog(w.script, watch && signal.None?);
    r, later := SweepAll(w, watch && signal.None?);
    signal := Earlier(signal, later);
    PartsJoin(old(w.log), old(w.script), e, rest);
  }

  // ---- What a cleanup's log shows ---------------------------------------------------------

  /** An absence is taken for granted only after a daemon check. */
  ghost predicate Checked(log: seq<Event>) { forall i: nat :: i < |log| ==> CheckedAt(log, i) }

  ghost predicate CheckedAt(log: seq<Event>, i: nat)
    requires i < |log|
  {
    NotFound(log[i]) ==> i + 1 < |log| && log[i + 1].command == Info
  }

  lemma CheckedBoth(a: seq<Event>, b: seq<Event>)
    requires Checked(a) && Checked(b)
    ensures Checked(a + b)
  {
    var log := a + b;
    forall i: nat | i < |log| ensures CheckedAt(log, i) {
      if i < |a| { assert CheckedAt(a, i); } else { assert CheckedAt(b, i - |a|); }
    }
  }

  /** What the sweep of `r` shows: nothing is created, absences are checked, and if all went well `r` alone was concluded, once. */
  ghost predicate Sweeps(log: seq<Event>, r: Resource) {
    OnlyCleanup(log, 0) && Checked(log) && forall x: Resource :: AllGood(log) ==> Conclusions(log, x) == if x == r then 1 else 0
  }

  lemma ConclusionsOfTwo(a: Event, b: Event, r: Resource)
    ensures Conclusions([a], r) == if Concludes(a, r) then 1 else 0
    ensures Conclusions([a, b], r) == (if Concludes(a, r) then 1 else 0) + if Concludes(b, r) then 1 else 0
  {
    assert [a][1..] == [] && [a, b][1..] == [b] && [b][1..] == [];
  }

  lemma SweepLogSweeps(script: seq<Turn>, r: Resource, watch: bool)
    ensures Sweeps(SweepLog(script, r, watch), r)
  {
    var log := SweepLog(script, r, watch);
    forall x: Resource ensures AllGood(log) ==> Conclusions(log, x) == if x == r then 1 else 0 {
      if |log| == 2 {
        ConclusionsOfTwo(log[0], log[1], x);
        assert log == [log[0], log[1]];
        assert log[1] in log;
      } else {
        ConclusionsOfTwo(log[0], log[0], x);
        assert log == [log[0]] && log[0] in log;
      }
    }
  }

  /** An event that concludes nothing may stand before a sweep. */
  lemma SweepsAfter(e: Event, rest: seq<Event>, r: Resource)
    requires Sweeps(rest, r) && IsCleanup(e.command) && !NotFound(e) && forall x: Resource :: !Concludes(e, x)
    ensures Sweeps([e] + rest, r)
  {
    AllGoodBoth([e], rest);
    CheckedBoth([e], rest);
    forall x: Resource ensures AllGood([e] + rest) ==> Conclusions([e] + rest, x) == if x == r then 1 else 0 {
      ConclusionsOfTwo(e, e, x);
      ConclusionsConcat([e], rest, x);
    }
  }

  lemma GatewayLogSweeps(script: seq<Turn>, watch: bool)
    ensures Sweeps(GatewayLog(script, watch), Gateway)
  {
    var look := CheckLog(script, Gateway, watch);
    SweepLogSweeps(script, Gateway, watch);
    if Finds(look) {
      var left, still := Left(script, 1), Still(watch, look);
      var e := Happening(StopGateway, left, still);
      SweepLogSweeps(Left(left, 1), Gateway, Still(still, [e]));
      SweepsAfter(e, SweepLog(Left(left, 1), Gateway, Still(still, [e])), Gateway);
      SweepsAfter(look[0], StopLog(left, still), Gateway);
      assert look == [look[0]];
    }
  }

  /** A cleanup creates nothing, checks absences, and if all went well concludes each resource once. */
  lemma CleanupLogSweeps(script: seq<Turn>, watch: bool)
    ensures var log := CleanupLog(script, watch);
            && log != [] && log[0].command == Info && OnlyCleanup(log, 0) && Checked(log)
            && forall x: Resource :: AllGood(log) ==> Conclusions(log, x) == 1
  {
    var e := Happening(Info, script, watch);
    AllGoodOne(e);
    if Succeeded(e.reply) {
      var rest := AllLog(Left(script, 1), Still(watch, [e]));
      AllLogSweeps(Left(script, 1), Still(watch, [e]));
      PartsJoin([], script, [e], rest);
      CheckedBoth([e], rest);
      forall x: Resource ensures AllGood([e] + rest) ==> Conclusions([e] + rest, x) == 1 {
        ConclusionsOfTwo(e, e, x);
        ConclusionsConcat([e], rest, x);
      }
    }
  }

  lemma AllLogSweeps(script: seq<Turn>, watch: bool)
    ensures var log := AllLog(script, watch);
            OnlyCleanup(log, 0) && Checked(log) && forall x: Resource :: AllGood(log) ==> Conclusions(log, x) == 1
  {
    var a := SweepLog(script, Agent, watch);
    SweepLogSweeps(script, Agent, watch);
    AbortedIsBad(a);
    if !Aborts(a) {
      var b := GatewayLog(Left(script, |a|), Still(watch, a));
      GatewayLogSweeps(Left(script, |a|), Still(watch, a));
      CheckedBoth(a, b);
      AbortedIsBad(a + b);
      if !Aborts(a + b) {
        var c := SweepLog(Left(script, |a + b|), Volume, Still(watch, a + b));
        SweepLogSweeps(Left(script, |a + b|), Volume, Still(watch, a + b));
        ThreeSweeps(a, b, c);
      }
    }
  }

  lemma SweepingBoth(a: seq<Event>, b: seq<Event>)
    requires OnlyCleanup(a, 0) && OnlyCleanup(b, 0)
    ensures OnlyCleanup(a + b, 0) && (AllGood(a + b) ==> AllGood(a) && AllGood(b))
  {
    AllGoodBoth(a, b);
  }

  lemma ConclusionsOfThree(a: seq<Event>, b: seq<Event>, c: seq<Event>, x: Resource)
    requires Sweeps(a, Agent) && Sweeps(b, Gateway) && Sweeps(c, Volume) && AllGood(a) && AllGood(b) && AllGood(c)
    ensures Conclusions(a + b + c, x) == 1
  {
    ConclusionsConcat(a, b, x);
    ConclusionsConcat(a + b, c, x);
  }

  lemma ThreeSweeps(a: seq<Event>, b: seq<Event>, c: seq<Event>)
    requires Sweeps(a, Agent) && Sweeps(b, Gateway) && Sweeps(c, Volume)
    ensures OnlyCleanup(a + b + c, 0) && Checked(a + b + c)
    ensures forall x: Resource :: AllGood(a + b + c) ==> Conclusions(a + b + c, x) == 1
  {
    SweepingBoth(a, b);
    SweepingBoth(a + b, c);
    CheckedBoth(a, b);
    CheckedBoth(a + b, c);
    forall x: Resource | AllGood(a + b + c) ensures Conclusions(a + b + c, x) == 1 { ConclusionsOfThree(a, b, c, x); }
  }

  /** The sweep of `r` gets here unless it aborts: a removal, whether it works or not, or an absence. */
  predicate Tries(e: Event, r: Resource) { e.command == Remove(r) || (e.command == Inspect(r) && NotFound(e)) }

  lemma SweepTries(script: seq<Turn>, r: Resource, watch: bool) returns (i: nat)
    requires !Aborts(SweepLog(script, r, watch))
    ensures i < |SweepLog(script, r, watch)| && Tries(SweepLog(script, r, watch)[i], r)
  {
    i := if Finds(CheckLog(script, r, watch)) then 1 else 0;
  }

  lemma GatewayTries(script: seq<Turn>, watch: bool) returns (i: nat)
    requires !Aborts(GatewayLog(script, watch))
    ensures i < |GatewayLog(script, watch)| && Tries(GatewayLog(script, watch)[i], Gateway)
  {
    var look := CheckLog(script, Gateway, watch);
    if Finds(look) {
      var left, still := Left(script, 1), Still(watch, look);
      var e := Happening(StopGateway, left, still);
      var rest := SweepLog(Left(left, 1), Gateway, Still(still, [e]));
      PartsJoin([], script, look, [e] + rest);
      PartsJoin([], script, [e], rest);
      i := SweepTries(Left(left, 1), Gateway, Still(still, [e]));
      assert GatewayLog(script, watch)[2 + i] == rest[i];
      i := i + 2;
    } else {
      i := 0;
    }
  }

  ghost predicate TriesAll(log: seq<Event>) {
    exists a, b, c :: 0 <= a < b < c < |log| && Tries(log[a], Agent) && Tries(log[b], Gateway) && Tries(log[c], Volume)
  }

  lemma TriesInThree(e: Event, a: seq<Event>, b: seq<Event>, c: seq<Event>, i: nat, j: nat, k: nat)
    requires i < |a| && j < |b| && k < |c| && Tries(a[i], Agent) && Tries(b[j], Gateway) && Tries(c[k], Volume)
    ensures TriesAll([e] + (a + b + c))
  {
    var log := [e] + (a + b + c);
    assert log[1 + i] == a[i] && log[1 + |a| + j] == b[j] && log[1 + |a| + |b| + k] == c[k];
  }

  lemma AllLogTriesAll(script: seq<Turn>, watch: bool, e: Event)
    requires !Aborts(AllLog(script, watch))
    ensures TriesAll([e] + AllLog(script, watch))
  {
    var a := SweepLog(script, Agent, watch);
    var i := SweepTries(script, Agent, watch);
    var b := GatewayLog(Left(script, |a|), Still(watch, a));
    PartsJoin([], script, a, b);
    var j := GatewayTries(Left(script, |a|), Still(watch, a));
    var c := SweepLog(Left(script, |a + b|), Volume, Still(watch, a + b));
    PartsJoin([], script, a + b, c);
    var k := SweepTries(Left(script, |a + b|), Volume, Still(watch, a + b));
    TriesInThree(e, a, b, c, i, j, k);
  }

  /** A step that fails without leaving an existence open does not keep the rest from being swept, in turn. */
  lemma CleanupTriesAll(script: seq<Turn>, watch: bool)
    requires !Aborts(CleanupLog(script, watch))
    ensures TriesAll(CleanupLog(script, watch))
  {
    var e := Happening(Info, script, watch);
    var first, still := Left(script, 1), Still(watch, [e]);
    assert Aborts([e]) == !Succeeded(e.reply);
    PartsJoin([], script, [e], AllLog(first, still));
    AllLogTriesAll(first, still, e);
  }

  lemma NotFoundConcludes(e: Event)
    requires NotFound(e)
    ensures Concludes(e, e.command.resource) && (TrulyGone(e, e.command.resource) <==> e.up)
  {
  }

  /**
   * After a clean cleanup everything is surely gone exactly when no inspection was answered "not found"
   * by a daemon that was down.
   */
  lemma CleanupGoneExactly(script: seq<Turn>, watch: bool)
    requires AllGood(CleanupLog(script, watch)) && Answering(CleanupLog(script, watch))
    ensures var log := CleanupLog(script, watch); (forall r: Resource :: SurelyGone(log, r)) <==> NoFalseAbsence(log, 0)
  {
    var log := CleanupLog(script, watch);
    CleanupLogSweeps(script, watch);
    if NoFalseAbsence(log, 0) {
      forall r: Resource ensures SurelyGone(log, r) {
        var i := FindConclusion(log, r);
        assert TrulyGone(log[i], r);
        SurelyGoneExactly(log, r);
      }
    }
    if forall r: Resource :: SurelyGone(log, r) {
      forall i | 0 <= i < |log| && NotFound(log[i]) ensures log[i].up {
        var r := log[i].command.resource;
        NotFoundConcludes(log[i]);
        assert SurelyGone(log, r);
        SurelyGoneExactly(log, r);
        var j :| 0 <= j < |log| && TrulyGone(log[j], r);
        OneConclusion(log, i, j, r);
      }
    }
  }

  /** A daemon that finds nothing, is down for the last inspection and back for the check after it. */
  predicate Restarting(script: seq<Turn>) {
    |script| == 7 && forall i :: 0 <= i < 7 ==> script[i] == RestartTurn(i)
  }

  function RestartTurn(i: nat): Turn { Turn(Exited(Some(i % 2)), i != 5, {Volume}, None) }

  lemma NothingFound(script: seq<Turn>, r: Resource)
    requires |script| >= 2 && script[0].reply == Exited(Some(1)) && script[1].reply == Exited(Some(0))
    ensures var part := [Happening(Inspect(r), script, false), Happening(Info, Left(script, 1), false)];
            CheckLog(script, r, false) == part && SweepLog(script, r, false) == part && !Aborts(part)
  {
    assert Left(script, 1)[0] == script[1];
  }

  /** The event of the `i`-th await of such a cleanup. */
  function Said(command: Command, i: nat): Event { Event(command, RestartTurn(i).reply, RestartTurn(i).up, {Volume}, false, None) }

  lemma PartAt(script: seq<Turn>, n: nat, r: Resource)
    requires Restarting(script) && n in {1, 3, 5}
    ensures var part := [Said(Inspect(r), n), Said(Info, n + 1)];
            CheckLog(Left(script, n), r, false) == part && SweepLog(Left(script, n), r, false) == part && !Aborts(part)
  {
    var rest := Left(script, n);
    assert rest[0] == script[n] && rest[1] == script[n + 1] && Left(rest, 1)[0] == rest[1];
    NothingFound(rest, r);
  }

  function Restarted(): seq<Event> {
    [Said(Info, 0), Said(Inspect(Agent), 1), Said(Info, 2), Said(Inspect(Gateway), 3), Said(Info, 4), Said(Inspect(Volume), 5), Said(Info, 6)]
  }

  lemma RestartedLog(script: seq<Turn>)
    requires Restarting(script)
    ensures CleanupLog(script, false) == Restarted()
  {
    PartAt(script, 1, Agent);
    PartAt(script, 3, Gateway);
    PartAt(script, 5, Volume);
    var a, b := [Said(Inspect(Agent), 1), Said(Info, 2)], [Said(Inspect(Gateway), 3), Said(Info, 4)];
    assert Left(Left(script, 1), |a|) == Left(script, 3) && Left(Left(script, 1), |a + b|) == Left(script, 5);
    assert GatewayLog(Left(script, 3), false) == b;
    assert AllLog(Left(script, 1), false) == a + b + [Said(Inspect(Volume), 5), Said(Info, 6)];
  }

  lemma RestartedIsHonest()
    ensures var log := Restarted();
            AllGood(log) && AllHonest({Volume}, log) && LiveAfter({Volume}, log) == {Volume} && !NoFalseAbsence(log, 0)
  {
    var log := Restarted();
    HonestHolding(log, Volume);
    assert Holding(log, Volume) == log;
    assert NotFound(log[5]) && !log[5].up;
  }

  /** Such a cleanup, run: it reports success, Docker was honest throughout, and the volume is left. */
  method RestartHidesVolume() returns (w: World, r: Result<()>)
    ensures r.Ok? && AllHonest({Volume}, w.log) && LiveAfter({Volume}, w.log) == {Volume} && !NoFalseAbsence(w.log, 0)
  {
    var script := seq(7, i requires 0 <= i < 7 => RestartTurn(i));
    w := new World(script);
    var signal;
    r, signal := CleanupSession(w, false);
    RestartedLog(script);
    RestartedIsHonest();
    assert w.log == [] + Restarted() == Restarted();
  }

  /** After a clean cleanup, with no child left, an honest Docker that gave no false absence holds nothing of the session. */
  lemma CleanIsGone(start: set<Resource>, used: seq<Event>, cleanup: seq<Event>)
    requires AllHonest(start, used + cleanup) && NoFalseAbsence(used + cleanup, |used|) && !ChildRuns(used)
    requires OnlyCleanup(cleanup, 0) && forall r: Resource :: Conclusions(cleanup, r) == 1
    ensures LiveAfter(start, used + cleanup) == {}
  {
    var log := used + cleanup;
    assert log[..|used|] == used;
    assert OnlyCleanup(log, |used|) by {
      forall i | |used| <= i < |log| ensures IsCleanup(log[i].command) { assert cleanup[i - |used|] in cleanup; }
    }
    forall r: Resource ensures r !in LiveAfter(start, log) {
      var i := FindConclusion(cleanup, r);
      assert log[|used| + i] == cleanup[i];
      GoneStaysGone(start, log, |used|, |used| + i, r);
    }
  }

  lemma CleanupWithinRun(used: seq<Event>, cleanup: seq<Event>)
    requires cleanup != [] && cleanup[0].command == Info && OnlyCleanup(cleanup, 0)
    ensures CleanupFrom(used + cleanup, |used|) && OnlyCleanup(used + cleanup, |used|)
    ensures CleanFrom(used + cleanup, |used|) <==> AllGood(cleanup)
  {
    var log := used + cleanup;
    forall i | |used| <= i < |log| ensures log[i] == cleanup[i - |used|] && IsCleanup(log[i].command) {
      assert cleanup[i - |used|] in cleanup;
    }
    if CleanFrom(log, |used|) {
      forall e <- cleanup ensures Good(e) {
        var i :| 0 <= i < |cleanup| && cleanup[i] == e;
        assert Good(log[|used| + i]);
      }
    }
  }

  // ---- The run ----------------------------------------------------------------------------

  /** The agent ran to its end without an interrupt, with an exit code that is not Docker's own 125. */
  predicate Completes(e: Event) {
    e.command == WaitAgent && e.signal.None? && e.reply.Exited? && e.reply.code != Some(125)
  }

  ghost predicate Completed(log: seq<Event>) { exists i :: 0 <= i < |log| && Completes(log[i]) }

  ghost predicate CompletedWith(log: seq<Event>, code: Option<nat>) {
    exists i :: 0 <= i < |log| && Completes(log[i]) && log[i].reply == Exited(code)
  }

  /** Waiting for the agent's process failed, so it may still be running. */
  predicate LosesChild(e: Event) {
    || (e.command == WaitAgent && e.signal.None? && !e.reply.Exited?)
    || (e.command == TryWait && e.reply.Broken?)
  }

  ghost predicate LostChild(log: seq<Event>) { exists i :: 0 <= i < |log| && LosesChild(log[i]) }

  /** What the part of a run from `from` on tells of its outcome. */
  ghost predicate Outcome(log: seq<Event>, from: nat, r: Result<Option<nat>>, fired: Option<bool>) {
    && (r.Ok? ==> fired.None? && from < |log| && Completes(log[|log| - 1]) && log[|log| - 1].reply == Exited(r.value))
    && (r.Ok? ==> forall i :: from <= i < |log| ==> !LosesChild(log[i]))
    && (r.Err? && fired.None? ==> r.error.DockerOperation? && forall i :: from <= i < |log| ==> !Completes(log[i]))
    && (fired.Some? && !LostChild(log) ==> r == Err(SignalError(fired.value)))
    && (ChildRuns(log) ==> LostChild(log))
  }

  lemma OutcomeSince(log: seq<Event>, from: nat, r: Result<Option<nat>>, fired: Option<bool>)
    requires from < |log| && Outcome(log, from + 1, r, fired)
    requires !log[from].command.WaitAgent? && !log[from].command.TryWait?
    ensures Outcome(log, from, r, fired)
  {
    assert !Completes(log[from]) && !LosesChild(log[from]);
  }

  predicate Went(e: Event) { Succeeded(e.reply) && e.signal.None? }

  /**
   * The commands of a run in their order, each issued only because of how the one before it went;
   * the agent's process is waited for and removed in turn once an interrupt ended the wait for it.
   */
  predicate PlannedAt(log: seq<Event>, i: nat)
    requires i < |log|
  {
    match i
    case 0 => log[0].command == Preflight && log[0].polled
    case 1 => log[1].command == Inspect(Volume) && Went(log[0])
    case 2 => log[2].command == CreateVolume && log[2].polled && NotFound(log[1])
    case 3 => log[3].command == RunGateway && log[3].polled && Went(log[2])
    case 4 => log[4].command == SpawnAgent && Went(log[3])
    case 5 => log[5].command == WaitAgent && log[5].polled && !log[4].reply.Broken?
    case _ =>
      && log[5].signal.Some? && log[i].command == (if i % 2 == 0 then TryWait else Remove(Agent))
      && (i % 2 == 1 ==> log[i - 1].reply.Running?)
  }

  ghost predicate Planned(log: seq<Event>, k: nat)
    requires k <= |log|
  {
    forall i: nat :: i < k ==> PlannedAt(log, i)
  }

  /** The event `e` keeps the run from going on and settles its result; `signal` is that of the wait for the agent. */
  predicate Settles(e: Event, signal: Option<bool>, r: Result<Option<nat>>) {
    match e.command
    case Preflight => !Went(e) && r == Err(if e.signal.Some? then SignalError(e.signal.value) else DockerUnavailable)
    case Inspect(_) => !NotFound(e) && r == Err(if Succeeded(e.reply) then SessionCollision else DockerUnavailable)
    case CreateVolume => Refused(e, "create the socket volume", r)
    case RunGateway => Refused(e, "start the boundary gateway", r)
    case SpawnAgent => e.reply.Broken? && r == Err(DockerOperation("run the isolated agent"))
    case WaitAgent => e.signal.None? && r == if Completes(e) then Ok(e.reply.code) else Err(DockerOperation("run the isolated agent"))
    case TryWait =>
      && !e.reply.Running? && signal.Some?
      && r == Err(if signal.value && e.reply.Broken? then DockerOperation("stop the interrupted agent") else SignalError(signal.value))
    case _ => false
  }

  predicate Refused(e: Event, what: string, r: Result<Option<nat>>) {
    !Went(e) && r == Err(if e.signal.Some? then SignalError(e.signal.value) else DockerOperation(what))
  }

  /** The first `k` events are a run that came to its end with `r`. */
  ghost predicate Ends(log: seq<Event>, k: nat, r: Result<Option<nat>>) {
    0 < k <= |log| && Planned(log, k) && Settles(log[k - 1], if k > 5 then log[5].signal else None, r)
  }

  lemma PlannedMore(log: seq<Event>, e: Event)
    requires Planned(log, |log|) && PlannedAt(log + [e], |log|)
    ensures Planned(log + [e], |log| + 1)
  {
    forall i: nat | i < |log| ensures PlannedAt(log + [e], i) { assert PlannedAt(log, i); }
  }

  lemma EndsBefore(log: seq<Event>, part: seq<Event>, r: Result<Option<nat>>)
    requires Ends(log, |log|, r)
    ensures Ends(log + part, |log|, r)
  {
    forall i: nat | i < |log| ensures PlannedAt(log + part, i) { assert PlannedAt(log, i); }
  }

  lemma ChildRunsMore(log: seq<Event>, e: Event)
    ensures ChildRuns(log + [e]) == match e.command
                                    case SpawnAgent => !e.reply.Broken?
                                    case WaitAgent => ChildRuns(log) && !(e.signal.None? && e.reply.Exited?)
                                    case TryWait => ChildRuns(log) && !e.reply.Exited?
                                    case _ => ChildRuns(log)
  {
    assert (log + [e])[..|log|] == log;
  }

  function SignalError(signal: bool): Error { if signal then Interrupted else LISTEN }

  /** Removes the agent until its process has ended. */
  method StopAgentAfterInterrupt(w: World) returns (r: Result<()>)
    requires w.Valid() && w.fired.Some?
    requires |w.log| == 6 && Planned(w.log, 6) && w.log[5].signal.Some?
    modifies w
    ensures w.Valid() && w.fired == old(w.fired) && old(w.log) < w.log && Planned(w.log, |w.log|)
    ensures var e := w.log[|w.log| - 1]; e.command == TryWait && !e.reply.Running? && (r.Err? <==> e.reply.Broken?)
    ensures r.Ok? ==> !ChildRuns(w.log)
    ensures r.Err? ==> r.error == DockerOperation("stop the interrupted agent")
    ensures r.Err? <==> exists i :: |old(w.log)| <= i < |w.log| && LosesChild(w.log[i])
  {
    while true
      invariant w.Valid() && w.fired == old(w.fired) && old(w.log) <= w.log
      invariant |w.log| % 2 == 0 && Planned(w.log, |w.log|)
      invariant forall i :: |old(w.log)| <= i < |w.log| ==> !LosesChild(w.log[i])
      decreases |w.script|
    {
      ghost var log := w.log;
      var reply, _ := w.Await(TryWait, false);
      ChildRunsMore(log, w.log[|log|]);
      PlannedMore(log, w.log[|log|]);
      if reply.Broken? {
        assert LosesChild(w.log[|log|]);
        return Err(DockerOperation("stop the interrupted agent"));
      }
      if reply.Exited? { return Ok(()); }
      log := w.log;
      var _, _ := w.Await(Remove(Agent), false);
      PlannedMore(log, w.log[|log|]);
    }
  }

  /** One event that neither completes the run nor loses the child, and a failure to report. */
  lemma OutcomeOfFailure(before: seq<Event>, e: Event, r: Result<Option<nat>>)
    requires !Completes(e) && r.Err? && r.error.DockerOperation?
    requires ChildRuns(before + [e]) ==> LosesChild(e)
    ensures Outcome(before + [e], |before|, r, None)
  {
    var log := before + [e];
    assert log[|before|] == e;
  }

  /** Waits for the agent, or stops it when interrupted. */
  method WaitForAgent(w: World) returns (r: Result<Option<nat>>, consumed: bool)
    requires w.Valid() && w.fired.None? && |w.log| == 5 && Planned(w.log, 5) && !w.log[4].reply.Broken?
    modifies w
    ensures w.Valid() && consumed == w.fired.Some? && old(w.log) <= w.log && Outcome(w.log, |old(w.log)|, r, w.fired)
    ensures Ends(w.log, |w.log|, r)
  {
    ghost var log, e := w.log, Happening(WaitAgent, w.script, true);
    var reply, signal := w.Await(WaitAgent, true);
    ChildRunsMore(log, e);
    PlannedMore(log, e);
    if signal.Some? {
      var stopped := StopAgentAfterInterrupt(w);
      r := Err(if signal.value && stopped.Err? then stopped.error else SignalError(signal.value));
      return r, true;
    }
    if !reply.Exited? || reply.code == Some(125) {
      r := Err(DockerOperation("run the isolated agent"));
      OutcomeOfFailure(log, e, r);
      return r, false;
    }
    return Ok(reply.code), false;
  }

  /** Starts the agent and waits for it. */
  method RunAgent(w: World) returns (r: Result<Option<nat>>, consumed: bool)
    requires w.Valid() && w.fired.None? && !ChildRuns(w.log) && |w.log| == 4 && Planned(w.log, 4) && Went(w.log[3])
    modifies w
    ensures w.Valid() && consumed == w.fired.Some? && old(w.log) <= w.log && Outcome(w.log, |old(w.log)|, r, w.fired)
    ensures Ends(w.log, |w.log|, r)
  {
    ghost var log, e := w.log, Happening(SpawnAgent, w.script, false);
    var reply, signal := w.Await(SpawnAgent, false);
    ChildRunsMore(log, e);
    PlannedMore(log, e);
    if reply.Broken? {
      r := Err(DockerOperation("run the isolated agent"));
      OutcomeOfFailure(log, e, r);
      return r, false;
    }
    r, consumed := WaitForAgent(w);
    OutcomeSince(w.log, |old(w.log)|, r, w.fired);
  }

  method RunAfterVolumeCreated(w: World) returns (r: Result<Option<nat>>, consumed: bool)
    requires w.Valid() && w.fired.None? && !ChildRuns(w.log) && |w.log| == 3 && Planned(w.log, 3) && Went(w.log[2])
    modifies w
    ensures w.Valid() && consumed == w.fired.Some? && old(w.log) <= w.log && Outcome(w.log, |old(w.log)|, r, w.fired)
    ensures Ends(w.log, |w.log|, r)
  {
    var reply, signal := w.Await(RunGateway, true);
    ChildRunsMore(old(w.log), w.log[|old(w.log)|]);
    PlannedMore(old(w.log), w.log[|old(w.log)|]);
    if signal.Some? { return Err(SignalError(signal.value)), true; }
    if !Succeeded(reply) { return Err(DockerOperation("start the boundary gateway")), false; }
    r, consumed := RunAgent(w);
    OutcomeSince(w.log, |old(w.log)|, r, w.fired);
  }

  /** Creates the volume and, if that worked, runs gateway and agent. */
  method UseVolume(w: World) returns (r: Result<Option<nat>>, consumed: bool)
    requires w.Valid() && w.fired.None? && !ChildRuns(w.log) && |w.log| == 2 && Planned(w.log, 2) && NotFound(w.log[1])
    modifies w
    ensures w.Valid() && consumed == w.fired.Some? && old(w.log) < w.log && Outcome(w.log, |old(w.log)|, r, w.fired)
    ensures Ends(w.log, |w.log|, r)
    ensures w.log[|old(w.log)|].command == CreateVolume
  {
    var reply, signal := w.Await(CreateVolume, true);
    ChildRunsMore(old(w.log), w.log[|old(w.log)|]);
    PlannedMore(old(w.log), w.log[|old(w.log)|]);
    if signal.Some? { return Err(SignalError(signal.value)), true; }
    if !Succeeded(reply) { return Err(DockerOperation("create the socket volume")), false; }
    r, consumed := RunAfterVolumeCreated(w);
    OutcomeSince(w.log, |old(w.log)|, r, w.fired);
  }

  /** Nothing was created and nothing remains to be cleaned up. */
  ghost predicate Untouched(log: seq<Event>) { forall i :: 0 <= i < |log| ==> log[i].command in {Preflight, Inspect(Volume)} }

  method Prepare(w: World) returns (r: Result<()>)
    requires w.Valid() && w.log == []
    modifies w
    ensures w.Valid() && Untouched(w.log) && !ChildRuns(w.log)
    ensures r.Ok? ==> w.fired.None? && |w.log| == 2 && Planned(w.log, 2) && NotFound(w.log[1])
    ensures r.Err? ==> Ends(w.log, |w.log|, Err(r.error))
  {
    var reply, signal := w.Await(Preflight, true);
    ChildRunsMore([], w.log[0]);
    PlannedMore([], w.log[0]);
    if signal.Some? { return Err(SignalError(signal.value)); }
    if !Succeeded(reply) { return Err(DockerUnavailable); }
    ghost var log := w.log;
    reply, signal := w.Await(Inspect(Volume), false);
    ChildRunsMore(log, w.log[1]);
    PlannedMore(log, w.log[1]);
    if reply.Broken? { return Err(DockerUnavailable); }
    if Succeeded(reply) { return Err(SessionCollision); }
    return Ok(());
  }

  /** A run that ended with `r` and was then cleaned up from `k` on: a failed cleanup or a late interrupt takes its place. */
  ghost predicate Answers(log: seq<Event>, k: nat, ended: Result<Option<nat>>, r: Result<Option<nat>>)
    requires k <= |log|
  {
    && Ends(log, k, ended)
    && (CleanFrom(log, k) ==>
          r == if SignalOf(log).None? || SignalOf(log[..k]).Some? then ended else Err(SignalError(SignalOf(log).value)))
  }

  /** These events are a cleanup, whatever Docker answered in it. */
  ghost predicate CleansUp(part: seq<Event>, watch: bool) { exists script :: part == CleanupLog(script, watch) }

  lemma CleanupCleansUp(script: seq<Turn>, watch: bool)
    ensures CleansUp(CleanupLog(script, watch), watch)
  {
  }

  /** What a whole run promises: `k` is where its cleanup starts. */
  ghost predicate Promise(log: seq<Event>, r: Result<Option<nat>>, k: nat) {
    if !Attempted(log) then r.Err? && Untouched(log) && Ends(log, |log|, r)
    else
      && CleanupFrom(log, k) && Attempted(log[..k]) && CleansUp(log[k..], SignalOf(log[..k]).None?)
      && (exists ended :: Answers(log, k, ended, r))
      && (r.Ok? <==> CleanFrom(log, k) && !Fired(log) && Completed(log))
      && (r.Ok? ==> CompletedWith(log, r.value) && !LostChild(log))
      && (!CleanFrom(log, k) ==> r == Err(CleanupError(log[k..])))
      && (CleanFrom(log, k) && !Fired(log) && !Completed(log) ==> r.error.DockerOperation?)
      && (CleanFrom(log, k) && SignalOf(log).Some? && !LostChild(log) ==> r == Err(SignalError(SignalOf(log).value)))
  }

  /** Nothing after the start of the cleanup completes a run or loses a child. */
  lemma OutcomeOfRun(before: seq<Event>, used: seq<Event>, log: seq<Event>, r: Result<Option<nat>>, fired: Option<bool>)
    requires before < used && used <= log && Untouched(before) && OnlyCleanup(log, |used|)
    requires Outcome(used, |before|, r, fired) && used[|before|].command == CreateVolume
    ensures Attempted(used) && Attempted(log)
    ensures r.Ok? ==> CompletedWith(log, r.value) && Completed(log) && !LostChild(log)
    ensures r.Err? && fired.None? ==> r.error.DockerOperation? && !Completed(log)
    ensures fired.Some? && !LostChild(log) ==> r == Err(SignalError(fired.value))
    ensures ChildRuns(used) ==> LostChild(log)
  {
    assert forall i :: 0 <= i < |before| ==> log[i] == before[i];
    assert forall i :: 0 <= i < |used| ==> log[i] == used[i];
    assert log[|before|].command == CreateVolume;
    if ChildRuns(used) {
      var i :| 0 <= i < |used| && LosesChild(used[i]);
      assert LosesChild(log[i]);
    }
  }

  /** The part of the run after the preparation: whatever happens in it, a cleanup follows. */
  method RunPrepared(w: World) returns (r: Result<Option<nat>>, ghost k: nat)
    requires w.Valid() && w.fired.None? && !ChildRuns(w.log) && Untouched(w.log)
    requires |w.log| == 2 && Planned(w.log, 2) && NotFound(w.log[1])
    modifies w
    ensures w.Valid() && Attempted(w.log) && Promise(w.log, r, k)
    ensures CleanFrom(w.log, k) && !LostChild(w.log) && NoFalseAbsence(w.log, k) ==> LeavesNothing(w.log)
  {
    var outcome, consumed := UseVolume(w);
    k := |w.log|;
    ghost var used, fired, ended, part := w.log, w.fired, outcome, CleanupLog(w.script, !consumed);
    CleanupLogSweeps(w.script, !consumed);
    CleanupCleansUp(w.script, !consumed);
    var cleanup, signal := CleanupSession(w, !consumed);
    if signal.Some? { outcome := Err(SignalError(signal.value)); }
    r := if cleanup.Err? then Err(cleanup.error) else outcome;
    PromiseKept(old(w.log), used, part, ended, fired, cleanup, signal, r);
    OutcomeOfRun(old(w.log), used, w.log, ended, fired);
    if CleanFrom(w.log, k) && !LostChild(w.log) && NoFalseAbsence(w.log, k) { CleanLeavesNothing(used, part); }
  }

  /** The locked run: on every path, with an interrupt or a failure at any await. */
  method RunLocked(w: World) returns (r: Result<Option<nat>>, ghost k: nat)
    requires w.Valid() && w.log == []
    modifies w
    ensures WellPolled(w.log) && Promise(w.log, r, k)
    ensures Attempted(w.log) && CleanFrom(w.log, k) && !LostChild(w.log) && NoFalseAbsence(w.log, k) ==> LeavesNothing(w.log)
  {
    k := 0;
    var ready := Prepare(w);
    if ready.Err? {
      r := Err(ready.error);
    } else {
      r, k := RunPrepared(w);
    }
    WatchedIsWellPolled(w.log);
  }

  /** If Docker was honest, nothing of the session is left. */
  ghost predicate LeavesNothing(log: seq<Event>) { forall start :: AllHonest(start, log) ==> LiveAfter(start, log) == {} }

  lemma CleanLeavesNothing(used: seq<Event>, part: seq<Event>)
    requires NoFalseAbsence(used + part, |used|) && !ChildRuns(used) && OnlyCleanup(part, 0)
    requires forall r: Resource :: Conclusions(part, r) == 1
    ensures LeavesNothing(used + part)
  {
    forall start | AllHonest(start, used + part) ensures LiveAfter(start, used + part) == {} { CleanIsGone(start, used, part); }
  }

  lemma PromiseKept(before: seq<Event>, used: seq<Event>, part: seq<Event>, ended: Result<Option<nat>>, fired: Option<bool>,
                    cleanup: Result<()>, signal: Option<bool>, r: Result<Option<nat>>)
    requires before < used && Untouched(before) && Outcome(used, |before|, ended, fired) && used[|before|].command == CreateVolume
    requires Ends(used, |used|, ended) && fired == SignalOf(used) && CleansUp(part, fired.None?)
    requires part != [] && part[0].command == Info && OnlyCleanup(part, 0) && (cleanup.Ok? <==> AllGood(part))
    requires cleanup.Err? ==> cleanup.error == CleanupError(part)
    requires SignalOf(used + part) == Earlier(fired, signal)
    requires r == if cleanup.Err? then Err(cleanup.error) else if signal.Some? then Err(SignalError(signal.value)) else ended
    requires fired.Some? ==> signal.None?
    ensures Promise(used + part, r, |used|) && OnlyCleanup(used + part, |used|)
  {
    CleanupWithinRun(used, part);
    OutcomeOfRun(before, used, used + part, ended, fired);
    SignalOfFired(used + part);
    assert (used + part)[..|used|] == used && (used + part)[|used|..] == part;
    EndsBefore(used, part, ended);
    assert Answers(used + part, |used|, ended, r);
  }

  /** Whatever a run starts was preceded by what must have gone well before it. */
  lemma NothingStartsUnprepared(log: seq<Event>, r: Result<Option<nat>>, k: nat, i: nat)
    requires Promise(log, r, k) && i < |log|
    ensures log[i].command == SpawnAgent ==> exists j :: 0 <= j < i && log[j].command == RunGateway && Went(log[j])
    ensures log[i].command in {SpawnAgent, RunGateway} ==> exists j :: 0 <= j < i && log[j].command == CreateVolume && Went(log[j])
    ensures log[i].command in {SpawnAgent, RunGateway, CreateVolume} ==>
      && (exists j :: 0 <= j < i && log[j].command == Preflight && Went(log[j]))
      && (exists j :: 0 <= j < i && log[j].command == Inspect(Volume) && NotFound(log[j]))
  {
    var n := if Attempted(log) then k else |log|;
    assert Planned(log, n) && (i < n || IsCleanup(log[i].command));
    if i < n && log[i].command in {SpawnAgent, RunGateway, CreateVolume} {
      assert PlannedAt(log, i);
      assert PlannedAt(log, 0) && PlannedAt(log, 1) && PlannedAt(log, 2);
      if i > 2 { assert PlannedAt(log, 3) && log[2].command == CreateVolume; }
      assert log[0].command == Preflight && log[1].command == Inspect(Volume);
    }
  }

  lemma AttemptedAfterLook(log: seq<Event>, n: nat)
    requires n <= |log| && Planned(log, n)
    ensures Attempted(log[..n]) ==> n > 2
    ensures n > 2 ==> NotFound(log[1])
  {
    if i :| 0 <= i < n && log[i].command == CreateVolume { assert PlannedAt(log, i); }
    if n > 2 { assert PlannedAt(log, 2); }
  }

  /** A session volume that is found is neither used nor removed. */
  lemma ExistingVolumeIsRefused(log: seq<Event>, r: Result<Option<nat>>, k: nat)
    requires Promise(log, r, k) && |log| > 1 && log[1].command == Inspect(Volume) && Succeeded(log[1].reply)
    ensures r == Err(SessionCollision) && |log| == 2
  {
    AttemptedAfterLook(log, if Attempted(log) then k else |log|);
  }
}
