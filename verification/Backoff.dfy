/**
 * Reconnecting with exponential backoff (class RisLiveWebSocketSource of
 * src/source/ris_live_websocket_source.cpp). The network, the stop flag and the passing of time are
 * an environment that answers from scripts; a script that runs out cuts the observation short.
 */
module Backoff {
  import opened Base

  datatype Answer = Yes | No | Cut

  /** What the source did, in order. */
  datatype Step =
    | Slept(requested: uint64, slept: nat, completed: bool)
    | Connected
    | RefusedAgain
    | RefusedLast
    | ReadFailed

  datatype Link = Fresh | Up | Down

  // ----- The delay -----

  function Min(a: nat, b: nat): nat {
    if a <= b then a else b
  }

  /** The delay after one failure more; the doubling wraps at 64 bits. */
  function NextDelay(delay: uint64, cap: uint64): uint64 {
    Min((delay * 2) % U64_LIMIT, cap)
  }

  ghost function DelayAfter(initial: uint64, cap: uint64, doublings: nat): uint64 {
    if doublings == 0 then initial else NextDelay(DelayAfter(initial, cap, doublings - 1), cap)
  }

  /** `initial` times two to the power of `doublings`. */
  ghost function Doubled(initial: nat, doublings: nat): nat {
    if doublings == 0 then initial else 2 * Doubled(initial, doublings - 1)
  }

  /** Exponential backoff as documented: doubled each time, up to the cap. */
  ghost function Capped(initial: uint64, cap: uint64, doublings: nat): nat {
    Min(Doubled(initial, doublings), cap)
  }

  lemma NextDelayWraps(delay: uint64, cap: uint64)
    ensures NextDelay(delay, cap) == Min(if 2 * delay < U64_LIMIT then 2 * delay else 2 * delay - U64_LIMIT, cap)
  {
    assert (delay * 2) % 0x1_0000_0000_0000_0000 ==
      if 2 * delay < 0x1_0000_0000_0000_0000 then 2 * delay else 2 * delay - 0x1_0000_0000_0000_0000;
  }

  lemma {:induction false} NothingDoubled(k: nat)
    ensures Doubled(0, k) == 0
  {
    if k == 0 {
    } else {
      NothingDoubled(k - 1);
    }
  }

  lemma {:induction false} DelayClosedForm(initial: uint64, cap: uint64, k: nat)
    requires initial <= cap && (initial == 0 || 2 * cap < U64_LIMIT)
    ensures DelayAfter(initial, cap, k) == Capped(initial, cap, k)
    ensures initial <= DelayAfter(initial, cap, k) <= cap
  {
    if k == 0 {
    } else {
      DelayClosedForm(initial, cap, k - 1);
      NothingDoubled(k - 1);
      NextDelayWraps(DelayAfter(initial, cap, k - 1), cap);
    }
  }

  lemma CapHolds(initial: uint64, cap: uint64, k: nat)
    requires initial <= cap
    ensures DelayAfter(initial, cap, k) <= cap
  {}

  lemma {:induction false} DoubledLarge(initial: nat, k: nat)
    requires initial > 0
    ensures Doubled(initial, k) > k
  {
    if k == 0 {
    } else {
      DoubledLarge(initial, k - 1);
    }
  }

  /** Once the cap is reached, doubling it must not wrap. */
  lemma CapIsLost(initial: uint64, cap: uint64, k: nat)
    requires initial > 0 && 2 * cap >= U64_LIMIT && Doubled(initial, k) >= cap
    requires DelayAfter(initial, cap, k) == Capped(initial, cap, k)
    ensures DelayAfter(initial, cap, k + 1) != Capped(initial, cap, k + 1)
  {
    NextDelayWraps(cap, cap);
    assert DelayAfter(initial, cap, k + 1) == NextDelay(cap, cap);
  }

  /**
   * The stored delay is the documented one for ever exactly when doubling the cap does not wrap
   * (or there is no delay at all).
   */
  lemma BackoffIffNoWrap(initial: uint64, cap: uint64)
    requires initial <= cap
    ensures (forall k: nat :: DelayAfter(initial, cap, k) == Capped(initial, cap, k))
       <==> initial == 0 || 2 * cap < U64_LIMIT
  {
    if initial == 0 || 2 * cap < U64_LIMIT {
      forall k: nat ensures DelayAfter(initial, cap, k) == Capped(initial, cap, k) {
        DelayClosedForm(initial, cap, k);
      }
    } else {
      DoubledLarge(initial, cap);
      if DelayAfter(initial, cap, cap) == Capped(initial, cap, cap) {
        CapIsLost(initial, cap, cap);
      }
    }
  }

  /** One failure can lose the delay altogether: 2^63 milliseconds, doubled, are none. */
  lemma WrapLosesDelay()
    ensures DelayAfter(0x8000_0000_0000_0000, 0x8000_0000_0000_0000, 1) == 0
    ensures Capped(0x8000_0000_0000_0000, 0x8000_0000_0000_0000, 1) == 0x8000_0000_0000_0000
  {
    NextDelayWraps(0x8000_0000_0000_0000, 0x8000_0000_0000_0000);
    assert DelayAfter(0x8000_0000_0000_0000, 0x8000_0000_0000_0000, 0) == 0x8000_0000_0000_0000;
    assert Doubled(0x8000_0000_0000_0000, 1) == 2 * Doubled(0x8000_0000_0000_0000, 0);
  }

  // ----- What a trace says -----

  /** How often the delay was doubled since the last successful connect. */
  ghost function Doublings(trace: seq<Step>): nat {
    if trace == [] then 0
    else
      var front := trace[..|trace| - 1];
      match trace[|trace| - 1]
      case Connected => 0
      case RefusedAgain => Doublings(front) + 1
      case _ => Doublings(front)
  }

  ghost function LinkAfter(trace: seq<Step>): Link {
    if trace == [] then Fresh
    else match trace[|trace| - 1]
      case Slept(_, _, _) => LinkAfter(trace[..|trace| - 1])
      case Connected => Up
      case _ => Down
  }

  predicate IsAttempt(step: Step) {
    step.Connected? || step.RefusedAgain? || step.RefusedLast?
  }

  /** What each attempt to connect came to. */
  ghost function Outcomes(trace: seq<Step>): seq<bool> {
    if trace == [] then [] else Outcomes(trace[..|trace| - 1]) + OutcomeOf(trace[|trace| - 1])
  }

  function OutcomeOf(step: Step): seq<bool> {
    if IsAttempt(step) then [step.Connected?] else []
  }

  ghost function TimeSlept(trace: seq<Step>): nat {
    if trace == [] then 0
    else
      var step := trace[|trace| - 1];
      TimeSlept(trace[..|trace| - 1]) + if step.Slept? then step.slept else 0
  }

  /**
   * A step keeps the pace: a sleep follows trouble, asks for the delay the failures so far call for and,
   * when not interrupted, takes exactly that long; after trouble nobody connects without a full sleep first.
   */
  ghost predicate KeepsPace(initial: uint64, cap: uint64, before: seq<Step>, step: Step) {
    match step
    case Slept(requested, slept, completed) =>
      && LinkAfter(before) == Down
      && requested == DelayAfter(initial, cap, Doublings(before))
      && slept <= requested && (completed ==> slept == requested)
    case ReadFailed => true
    case _ => LinkAfter(before) == Down ==> before != [] && SleptFully(before[|before| - 1])
  }

  predicate SleptFully(step: Step) {
    step.Slept? && step.completed
  }

  ghost predicate Paced(initial: uint64, cap: uint64, trace: seq<Step>) {
    trace == [] ||
    (Paced(initial, cap, trace[..|trace| - 1]) && KeepsPace(initial, cap, trace[..|trace| - 1], trace[|trace| - 1]))
  }

  lemma OneMoreStep(initial: uint64, cap: uint64, trace: seq<Step>, step: Step)
    ensures Doublings(trace + [step])
         == if step.Connected? then 0 else Doublings(trace) + if step.RefusedAgain? then 1 else 0
    ensures LinkAfter(trace + [step]) == match step case Slept(_, _, _) => LinkAfter(trace) case Connected => Up case _ => Down
    ensures Outcomes(trace + [step]) == Outcomes(trace) + OutcomeOf(step)
    ensures TimeSlept(trace + [step]) == TimeSlept(trace) + if step.Slept? then step.slept else 0
    ensures Paced(initial, cap, trace + [step]) <==> Paced(initial, cap, trace) && KeepsPace(initial, cap, trace, step)
  {
    assert (trace + [step])[..|trace|] == trace;
  }

  /** Over a whole paced run, every sleep is the documented backoff, and no failure is followed by an immediate retry. */
  lemma {:induction false} PacedRun(initial: uint64, cap: uint64, trace: seq<Step>, i: nat)
    requires Paced(initial, cap, trace) && i < |trace|
    requires initial <= cap && (initial == 0 || 2 * cap < U64_LIMIT)
    ensures trace[i].Slept? ==> trace[i].requested == Capped(initial, cap, Doublings(trace[..i]))
    ensures trace[i].Slept? ==> initial <= trace[i].requested <= cap
    ensures IsAttempt(trace[i]) && LinkAfter(trace[..i]) == Down ==> i > 0 && SleptFully(trace[i - 1])
  {
    var front := trace[..|trace| - 1];
    if i < |trace| - 1 {
      assert front[..i] == trace[..i];
      PacedRun(initial, cap, front, i);
    } else {
      DelayClosedForm(initial, cap, Doublings(front));
    }
  }

  /** A refused attempt or a broken link. */
  predicate IsTrouble(step: Step) {
    step.RefusedAgain? || step.RefusedLast? || step.ReadFailed?
  }

  /** The link is down when the last thing that was no sleep was trouble. */
  lemma {:induction false} DownMeans(trace: seq<Step>, j: nat)
    requires j < |trace| && !trace[j].Slept? && forall k :: j < k < |trace| ==> trace[k].Slept?
    ensures LinkAfter(trace) == Down <==> IsTrouble(trace[j])
  {
    if j < |trace| - 1 {
      DownMeans(trace[..|trace| - 1], j);
    } else {
    }
  }

  lemma {:induction false} OnlySlept(trace: seq<Step>)
    requires forall k :: 0 <= k < |trace| ==> trace[k].Slept?
    ensures LinkAfter(trace) == Fresh
  {
    if trace == [] {
    } else {
      OnlySlept(trace[..|trace| - 1]);
    }
  }

  lemma {:induction false} StepKeepsPace(initial: uint64, cap: uint64, trace: seq<Step>, i: nat)
    requires Paced(initial, cap, trace) && i < |trace|
    ensures KeepsPace(initial, cap, trace[..i], trace[i])
  {
    if i < |trace| - 1 {
      assert trace[..|trace| - 1][..i] == trace[..i];
      StepKeepsPace(initial, cap, trace[..|trace| - 1], i);
    } else {
    }
  }

  /**
   * In a paced run the first step is no sleep, and between sleeps and the last other step: a sleep and
   * an attempt after a full sleep come after trouble only, and an attempt after trouble comes after a
   * full sleep only.
   */
  lemma SleepAfterTrouble(initial: uint64, cap: uint64, trace: seq<Step>, i: nat, j: nat)
    requires Paced(initial, cap, trace) && i < |trace|
    requires j < i ==> !trace[j].Slept? && forall k :: j < k < i ==> trace[k].Slept?
    requires j >= i ==> forall k :: 0 <= k < i ==> trace[k].Slept?
    ensures trace[i].Slept? ==> j < i && IsTrouble(trace[j])
    ensures IsAttempt(trace[i]) && j < i && IsTrouble(trace[j]) ==> trace[i - 1].Slept? && trace[i - 1].completed
    ensures IsAttempt(trace[i]) && i > 0 && trace[i - 1].Slept? ==> j < i && IsTrouble(trace[j])
  {
    StepKeepsPace(initial, cap, trace, i);
    if j < i {
      DownMeans(trace[..i], j);
    } else {
      OnlySlept(trace[..i]);
    }
    if i > 0 && trace[i - 1].Slept? {
      StepKeepsPace(initial, cap, trace, i - 1);
      if j < i - 1 {
        DownMeans(trace[..i - 1], j);
      } else {
        OnlySlept(trace[..i - 1]);
      }
    }
  }

  // ----- The environment -----

  /** Everything foreign: the k-th question of a kind is answered by the k-th entry of a script. */
  class Environment {
    const stops: seq<bool>
    const connects: seq<bool>
    const replies: seq<Option<string>>
    var polls: nat
    var tries: nat
    var received: nat
    var slept: nat

    ghost predicate Valid()
      reads this
    {
      polls <= |stops| && tries <= |connects| && received <= |replies|
    }

    constructor (stops: seq<bool>, connects: seq<bool>, messages: seq<Option<string>>)
      ensures Valid() && this.stops == stops && this.connects == connects && this.replies == messages
      ensures polls == tries == received == slept == 0
    {
      this.stops, this.connects, this.replies := stops, connects, messages;
      polls, tries, received, slept := 0, 0, 0, 0;
    }

    method ShutdownRequested() returns (a: Answer)
      requires Valid()
      modifies `polls
      ensures Valid() && polls == old(polls) + if a == Cut then 0 else 1
      ensures a == if old(polls) == |stops| then Cut else if stops[old(polls)] then Yes else No
    {
      if polls == |stops| {
        return Cut;
      }
      a := if stops[polls] then Yes else No;
      polls := polls + 1;
    }

    /** Connecting and subscribing, as one success or failure. */
    method Connect() returns (a: Answer)
      requires Valid()
      modifies `tries
      ensures Valid() && tries == old(tries) + if a == Cut then 0 else 1
      ensures a == if old(tries) == |connects| then Cut else if connects[old(tries)] then Yes else No
    {
      if tries == |connects| {
        return Cut;
      }
      a := if connects[tries] then Yes else No;
      tries := tries + 1;
    }

    /** The next message, or none when reading fails. */
    method Read() returns (a: Answer, message: string)
      requires Valid()
      modifies `received
      ensures Valid() && received == old(received) + if a == Cut then 0 else 1
      ensures a == if old(received) == |replies| then Cut else if replies[old(received)].Some? then Yes else No
      ensures a == Yes ==> replies[old(received)] == Some(message)
    {
      if received == |replies| {
        return Cut, "";
      }
      a, message := if replies[received].Some? then Yes else No, if replies[received].Some? then replies[received].value else "";
      received := received + 1;
    }

    method SleepFor(ms: nat)
      modifies `slept
      ensures slept == old(slept) + ms
    {
      slept := slept + ms;
    }
  }

  /** None of these polls said stop. */
  ghost predicate Quiet(stops: seq<bool>, from: nat, to: nat) {
    from <= to <= |stops| && forall k :: from <= k < to ==> !stops[k]
  }

  /** The last of these polls said stop, and none before it. */
  ghost predicate StoppedAt(stops: seq<bool>, from: nat, to: nat) {
    from < to <= |stops| && stops[to - 1] && Quiet(stops, from, to - 1)
  }

  /** Some of these polls said stop. */
  ghost predicate StoppedIn(stops: seq<bool>, from: nat, to: nat) {
    exists k :: from <= k < to <= |stops| && stops[k]
  }

  /** The polls an uninterrupted sleep makes: one before every chunk of at most 100 ms, and one after. */
  function Polls(delay: nat): nat {
    (delay + 99) / 100 + 1
  }

  lemma PollsMonotone(a: nat, b: nat)
    requires a <= b
    ensures Polls(a) <= Polls(b)
  {}

  /** The polls a number of attempts can make, each with its longest sleep. */
  function Budget(attempts: nat, cap: nat): nat {
    if attempts == 0 then 0 else Budget(attempts - 1, cap) + 1 + Polls(cap)
  }

  lemma {:induction false} BudgetMonotone(a: nat, b: nat, cap: nat)
    requires a <= b
    ensures Budget(a, cap) <= Budget(b, cap)
    decreases b
  {
    if a == b {
    } else {
      BudgetMonotone(a, b - 1, cap);
    }
  }

  /**
   * Sleeps the whole delay unless some poll in time says stop, which ends the sleep at the chunk
   * before it.
   */
  method SleepWithStop(env: Environment, delay: uint64) returns (a: Answer)
    requires env.Valid()
    modifies env`polls, env`slept
    ensures env.Valid() && old(env.polls) <= env.polls
    ensures a == Yes <==> Quiet(env.stops, old(env.polls), old(env.polls) + (delay + 99) / 100 + 1)
    ensures a == Yes ==> env.polls == old(env.polls) + Polls(delay) && env.slept == old(env.slept) + delay
    ensures a == No ==> StoppedAt(env.stops, old(env.polls), env.polls)
    ensures a == No ==> env.slept == old(env.slept) + Min(100 * (env.polls - 1 - old(env.polls)), delay)
    ensures a == Cut ==> env.polls == |env.stops| < old(env.polls) + Polls(delay)
    ensures env.polls <= old(env.polls) + Polls(delay)
    ensures old(env.slept) <= env.slept <= old(env.slept) + delay
  {
    var remaining := delay;
    while remaining > 0
      invariant env.Valid() && Quiet(env.stops, old(env.polls), env.polls)
      invariant remaining <= delay && env.slept == old(env.slept) + delay - remaining
      invariant delay - remaining == Min(100 * (env.polls - old(env.polls)), delay)
      invariant env.polls + Polls(remaining) == old(env.polls) + Polls(delay)
      decreases remaining
    {
      var stop := env.ShutdownRequested();
      if stop != No {
        return if stop == Yes then No else Cut;
      }
      var chunk := Min(remaining, 100);
      env.SleepFor(chunk);
      remaining := remaining - chunk;
    }
    var stop := env.ShutdownRequested();
    return if stop == Cut then Cut else if stop == Yes then No else Yes;
  }

  // ----- The source -----

  lemma OneMoreEntry<T>(script: seq<T>, i: nat)
    requires i < |script|
    ensures script[..i + 1] == script[..i] + [script[i]]
  {}

  class RisLiveSource {
    const reconnectEnabled: bool
    const initialDelay: uint64
    const maxDelay: uint64
    const maxAttempts: nat
    var nextDelay: uint64
    var delayBeforeReconnect: bool
    var connected: bool
    ghost var trace: seq<Step>

    /** Closed, see Base.Key. */
    ghost predicate Valid(env: Environment)
      reads this, env
    {
      env.Valid() && forall k {:trigger Key(SourceDoor, k)} :: Key(SourceDoor, k) ==> Invariant(env)
    }

    lemma Open(env: Environment)
      requires Valid(env)
      ensures Invariant(env)
    {
      assert Key(SourceDoor, 0);
    }

    /** The delay fields are what the trace calls for, and the trace is what the environment saw. */
    ghost predicate Invariant(env: Environment)
      reads this, env
    {
      && env.Valid() && initialDelay <= maxDelay
      && nextDelay == DelayAfter(initialDelay, maxDelay, Doublings(trace))
      && (delayBeforeReconnect <==> LinkAfter(trace) == Down)
      && (connected <==> LinkAfter(trace) == Up)
      && (reconnectEnabled ==> Paced(initialDelay, maxDelay, trace))
      && Outcomes(trace) == env.connects[..env.tries] && TimeSlept(trace) == env.slept
    }

    constructor (reconnectEnabled: bool, initialDelay: uint64, maxDelay: uint64, maxAttempts: nat)
      ensures trace == [] && this.reconnectEnabled == reconnectEnabled
      ensures this.initialDelay == initialDelay && this.maxAttempts == maxAttempts
      ensures this.maxDelay == if initialDelay <= maxDelay then maxDelay else initialDelay
      ensures forall env: Environment :: env.Valid() && env.tries == 0 && env.slept == 0 ==> Valid(env)
    {
      this.reconnectEnabled, this.initialDelay, this.maxAttempts := reconnectEnabled, initialDelay, maxAttempts;
      this.maxDelay := if initialDelay <= maxDelay then maxDelay else initialDelay;
      nextDelay, delayBeforeReconnect, connected, trace := initialDelay, false, false, [];
    }

    /** What the object's state says once doubling the cap does not wrap. */
    lemma DocumentedBackoff(env: Environment, i: nat)
      requires Valid(env) && (initialDelay == 0 || 2 * maxDelay < U64_LIMIT)
      requires reconnectEnabled && i < |trace|
      ensures nextDelay == Capped(initialDelay, maxDelay, Doublings(trace))
      ensures trace[i].Slept? ==> trace[i].requested == Capped(initialDelay, maxDelay, Doublings(trace[..i]))
      ensures trace[i].Slept? ==> initialDelay <= trace[i].requested <= maxDelay
      ensures IsAttempt(trace[i]) && LinkAfter(trace[..i]) == Down ==> i > 0 && SleptFully(trace[i - 1])
    {
      Open(env);
      DelayClosedForm(initialDelay, maxDelay, Doublings(trace));
      PacedRun(initialDelay, maxDelay, trace, i);
    }

    method ResetConnection()
      modifies `connected, `delayBeforeReconnect
      ensures !connected && delayBeforeReconnect
    {
      connected, delayBeforeReconnect := false, true;
    }

    /** One step more in the trace, at the right pace. */
    ghost method Note(step: Step)
      requires reconnectEnabled ==> Paced(initialDelay, maxDelay, trace) && KeepsPace(initialDelay, maxDelay, trace, step)
      modifies `trace
      ensures reconnectEnabled ==> Paced(initialDelay, maxDelay, trace)
      ensures Doublings(trace) ==
        if step.Connected? then 0 else old(Doublings(trace)) + if step.RefusedAgain? then 1 else 0
      ensures LinkAfter(trace) ==
        if step.Slept? then old(LinkAfter(trace)) else if step.Connected? then Up else Down
      ensures Outcomes(trace) == old(Outcomes(trace)) + OutcomeOf(step)
      ensures TimeSlept(trace) == old(TimeSlept(trace)) + if step.Slept? then step.slept else 0
      ensures trace == old(trace) + [step]
    {
      OneMoreStep(initialDelay, maxDelay, trace, step);
      trace := trace + [step];
    }

    /** The sleep before an attempt. */
    method Rest(env: Environment, delay: uint64) returns (a: Answer)
      requires Valid(env) && !connected && delay == nextDelay && delayBeforeReconnect
      modifies `trace, env`polls, env`slept
      ensures Valid(env) && old(env.polls) <= env.polls && Doublings(trace) == old(Doublings(trace))
      ensures a == Yes ==> trace != [] && SleptFully(trace[|trace| - 1]) && Quiet(env.stops, old(env.polls), env.polls)
      ensures a == No ==> StoppedAt(env.stops, old(env.polls), env.polls)
      ensures a == Cut ==> env.polls == |env.stops| < old(env.polls) + Polls(maxDelay)
      ensures env.polls <= old(env.polls) + Polls(maxDelay)
      ensures |trace| == |old(trace)| + 1 && old(trace) <= trace && trace[|trace| - 1].Slept?
    {
      Open(env);
      CapHolds(initialDelay, maxDelay, Doublings(trace));
      PollsMonotone(delay, maxDelay);
      ghost var sleptBefore := env.slept;
      a := SleepWithStop(env, delay);
      Note(Slept(delay, env.slept - sleptBefore, a == Yes));
    }

    /** The invariant, but for an attempt of this outcome that the environment saw and the trace does not hold yet. */
    ghost predicate Behind(env: Environment, outcome: bool)
      reads this, env
    {
      && env.Valid() && initialDelay <= maxDelay
      && nextDelay == DelayAfter(initialDelay, maxDelay, Doublings(trace))
      && (delayBeforeReconnect <==> LinkAfter(trace) == Down)
      && (reconnectEnabled ==> Paced(initialDelay, maxDelay, trace))
      && (reconnectEnabled && delayBeforeReconnect ==> trace != [] && SleptFully(trace[|trace| - 1]))
      && Outcomes(trace) + [outcome] == env.connects[..env.tries] && TimeSlept(trace) == env.slept
    }

    method Succeed(env: Environment)
      requires Behind(env, true)
      modifies this
      ensures Valid(env) && connected && Doublings(trace) == 0 && trace == old(trace) + [Connected]
    {
      Note(Connected);
      connected, nextDelay, delayBeforeReconnect := true, initialDelay, false;
    }

    method Fail(env: Environment, last: bool)
      requires Behind(env, false)
      modifies this
      ensures Valid(env) && !connected && delayBeforeReconnect
      ensures Doublings(trace) == old(Doublings(trace)) + if last then 0 else 1
      ensures trace == old(trace) + [if last then RefusedLast else RefusedAgain]
    {
      Note(if last then RefusedLast else RefusedAgain);
      ResetConnection();
      nextDelay := if last then nextDelay else NextDelay(nextDelay, maxDelay);
    }

    /** One attempt to connect, and what failure or success leaves behind. */
    method Attempt(env: Environment, last: bool) returns (a: Answer)
      requires Valid(env) && !connected
      requires reconnectEnabled && delayBeforeReconnect ==> trace != [] && SleptFully(trace[|trace| - 1])
      modifies this, env`tries
      ensures Valid(env) && (connected <==> a == Yes)
      ensures env.tries == old(env.tries) + if a == Cut then 0 else 1
      ensures Doublings(trace) == if a == Yes then 0 else old(Doublings(trace)) + if a == No && !last then 1 else 0
      ensures a == No ==> delayBeforeReconnect
      ensures a == Cut ==> env.tries == |env.connects|
      ensures a != Cut ==> (env.connects[old(env.tries)] <==> a == Yes)
      ensures trace == old(trace) + AttemptStep(a, last)
    {
      Open(env);
      a := env.Connect();
      if a == Yes {
        OneMoreEntry(env.connects, env.tries - 1);
        Succeed(env);
      } else if a == No {
        OneMoreEntry(env.connects, env.tries - 1);
        Fail(env, last);
      }
    }

    ghost function AttemptStep(a: Answer, last: bool): seq<Step> {
      match a
      case Yes => [Connected]
      case No => [if last then RefusedLast else RefusedAgain]
      case Cut => []
    }

    /** Every refusal doubles the delay, but the one that makes a call give up. */
    ghost function Redoubled(triesBefore: nat, tries: nat): nat
      requires triesBefore <= tries
    {
      if GaveUp(triesBefore, tries) then tries - triesBefore - 1 else tries - triesBefore
    }

    /** The scripts hold all the answers one call with a limit can ask for. */
    ghost predicate Enough(env: Environment, polls: nat, tries: nat) {
      polls + Budget(maxAttempts, maxDelay) <= |env.stops| && tries + maxAttempts <= |env.connects|
    }

    /** Every one of these attempts to connect was refused. */
    ghost predicate AllRefused(env: Environment, from: int, to: int) {
      forall k :: 0 <= from <= k < to <= |env.connects| ==> !env.connects[k]
    }

    /** As many attempts as one call may make, all refused. */
    ghost predicate GaveUp(triesBefore: nat, tries: nat) {
      maxAttempts != 0 && tries == triesBefore + maxAttempts
    }

    /** One turn of the loop: look at the stop flag, rest if there was trouble, try to connect. */
    method OneTry(env: Environment, delay: uint64, delayBeforeAttempt: bool, last: bool)
      returns (a: Answer, tried: bool)
      requires Valid(env) && reconnectEnabled && !connected
      requires delay == nextDelay && delayBeforeAttempt == delayBeforeReconnect
      modifies this, env`polls, env`tries, env`slept
      ensures Valid(env) && (connected <==> a == Yes) && old(trace) <= trace
      ensures env.tries == old(env.tries) + if tried then 1 else 0
      ensures old(env.polls) < env.polls || (a == Cut && env.polls == old(env.polls))
      ensures env.polls <= old(env.polls) + 1 + Polls(maxDelay)
      ensures tried ==> a != Cut && Quiet(env.stops, old(env.polls), env.polls)
      ensures tried ==> (env.connects[old(env.tries)] <==> a == Yes)
      ensures tried && a == No ==> delayBeforeReconnect
      ensures !tried ==> a != Yes && (a == No ==> StoppedAt(env.stops, old(env.polls), env.polls))
      ensures a == Cut ==>
        env.polls == |env.stops| < old(env.polls) + 1 + Polls(maxDelay) || env.tries == |env.connects|
      ensures Doublings(trace)
           == if a == Yes then 0 else old(Doublings(trace)) + if tried && !last then 1 else 0
    {
      tried := false;
      var stop := env.ShutdownRequested();
      a := if stop == Yes then No else if stop == No then Yes else Cut;
      if a == Yes && delayBeforeAttempt {
        a := Rest(env, delay);
      }
      if a == Yes {
        a := Attempt(env, last);
        tried := a != Cut;
      }
    }

    /**
     * Connects, or gives up: because it was told to stop, or after the allowed number of attempts.
     * Between the attempts it keeps the pace that Valid describes.
     */
    method ReconnectWithBackoff(env: Environment) returns (a: Answer)
      requires Valid(env) && reconnectEnabled && !connected
      modifies this, env`polls, env`tries, env`slept
      ensures Valid(env) && (connected <==> a == Yes)
      ensures old(env.polls) <= env.polls && old(env.tries) <= env.tries
      ensures maxAttempts != 0 ==> env.tries <= old(env.tries) + maxAttempts
      ensures a == Yes ==> Quiet(env.stops, old(env.polls), env.polls) && Doublings(trace) == 0
      ensures a != Yes ==> Doublings(trace) == old(Doublings(trace)) + Redoubled(old(env.tries), env.tries)
      ensures a == No ==> StoppedAt(env.stops, old(env.polls), env.polls) || GaveUp(old(env.tries), env.tries)
      ensures AllRefused(env, old(env.tries), if a == Yes then env.tries - 1 else env.tries)
      ensures a == Yes ==> old(env.tries) < env.tries && env.connects[env.tries - 1]
      ensures old(trace) <= trace
      ensures a == Cut ==> env.polls == |env.stops| || env.tries == |env.connects|
      ensures maxAttempts != 0 && Enough(env, old(env.polls), old(env.tries)) ==> a != Cut
    {
      var attempt, delay, delayBeforeAttempt := 0, nextDelay, delayBeforeReconnect;
      while true
        invariant Valid(env) && !connected && env.tries == old(env.tries) + attempt
        invariant Quiet(env.stops, old(env.polls), env.polls)
        invariant maxAttempts != 0 ==> attempt < maxAttempts
        invariant AllRefused(env, old(env.tries), env.tries)
        invariant Doublings(trace) == old(Doublings(trace)) + attempt && old(trace) <= trace
        invariant env.polls <= old(env.polls) + Budget(attempt, maxDelay)
        invariant delay == nextDelay && delayBeforeAttempt == delayBeforeReconnect
        decreases |env.stops| - env.polls
      {
        if maxAttempts != 0 {
          BudgetMonotone(attempt + 1, maxAttempts, maxDelay);
        }
        attempt := attempt + 1;
        var last, tried := maxAttempts != 0 && attempt >= maxAttempts, false;
        a, tried := OneTry(env, delay, delayBeforeAttempt, last);
        if a != No || !tried || last {
          return;
        }
        delay, delayBeforeAttempt := nextDelay, true;
      }
    }

    method EnsureConnected(env: Environment) returns (a: Answer)
      requires Valid(env)
      modifies this, env`polls, env`tries, env`slept
      ensures Valid(env) && (connected <==> a == Yes)
      ensures old(env.polls) <= env.polls && old(env.tries) <= env.tries
      ensures old(trace) <= trace
      ensures old(connected) ==> a == Yes && env.polls == old(env.polls) && env.tries == old(env.tries) && trace == old(trace)
      ensures !reconnectEnabled ==> env.tries <= old(env.tries) + 1
      ensures reconnectEnabled && maxAttempts != 0 ==> env.tries <= old(env.tries) + maxAttempts
      ensures reconnectEnabled && a == No ==> StoppedIn(env.stops, old(env.polls), env.polls) || GaveUp(old(env.tries), env.tries)
      ensures !old(connected) && !reconnectEnabled ==>
        (env.tries == old(env.tries) + 1 <==> a == Yes || (a == No && !StoppedAt(env.stops, old(env.polls), env.polls)))
      ensures AllRefused(env, old(env.tries), if a == Yes && !old(connected) then env.tries - 1 else env.tries)
      ensures a == Yes && !old(connected) ==> old(env.tries) < env.tries && env.connects[env.tries - 1]
      ensures a == Cut ==> env.polls == |env.stops| || env.tries == |env.connects|
    {
      if connected {
        return Yes;
      }
      var stop := env.ShutdownRequested();
      if stop != No {
        return if stop == Yes then No else Cut;
      }
      if reconnectEnabled {
        a := ReconnectWithBackoff(env);
      } else {
        a := Attempt(env, true);
      }
    }

    /** A failed read breaks the link; what follows is up to the next attempts. */
    method LoseConnection(env: Environment)
      requires Valid(env)
      modifies this
      ensures Valid(env) && !connected && Doublings(trace) == old(Doublings(trace))
      ensures trace == old(trace) + [ReadFailed]
    {
      Open(env);
      Note(ReadFailed);
      ResetConnection();
    }

    /**
     * The first message that can be read, over however many connections it takes. With
     * reconnecting enabled, it ends without one only when told to stop or when attempts ran out.
     */
    method NextMessage(env: Environment) returns (a: Answer, message: string)
      requires Valid(env)
      modifies this, env`polls, env`tries, env`slept, env`received
      ensures Valid(env) && old(env.polls) <= env.polls && old(env.received) <= env.received
      ensures old(trace) <= trace
      ensures a == Yes ==> connected && old(env.received) < env.received
      ensures a == Yes ==> env.replies[env.received - 1] == Some(message)
      ensures forall k :: old(env.received) <= k < env.received - (if a == Yes then 1 else 0) ==> env.replies[k] == None
      ensures reconnectEnabled && a == No ==>
        StoppedIn(env.stops, old(env.polls), env.polls) || (maxAttempts != 0 && env.tries >= old(env.tries) + maxAttempts)
      ensures !reconnectEnabled && a == No ==>
        StoppedIn(env.stops, old(env.polls), env.polls) || (old(env.tries) < env.tries && !env.connects[env.tries - 1])
      ensures a == Cut ==>
        env.polls == |env.stops| || env.tries == |env.connects| || env.received == |env.replies|
    {
      message := "";
      while true
        invariant Valid(env) && old(env.polls) <= env.polls && old(env.tries) <= env.tries
        invariant old(env.received) <= env.received && old(trace) <= trace
        invariant forall k :: old(env.received) <= k < env.received ==> env.replies[k] == None
        decreases |env.stops| - env.polls
      {
        var stop := env.ShutdownRequested();
        if stop != No {
          return if stop == Yes then No else Cut, "";
        }
        a := EnsureConnected(env);
        if a != Yes {
          return;
        }
        a, message := env.Read();
        if a != No {
          return;
        }
        LoseConnection(env);
      }
    }
  }
}
