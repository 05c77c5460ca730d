/** The monitor loops around the balloon decision: when an adjustment may be issued, and the
    error budget of a crosvm endpoint. */
module BalloonMonitor {
  import opened Environment
  import opened Balloon

  type Time = nat

  /** Consecutive failures at the end of a log of outcomes (true is a success). */
  function TrailingErrors(log: seq<bool>): (n: nat)
    ensures n <= |log|
  {
    if log == [] || log[|log| - 1] then 0 else TrailingErrors(log[..|log| - 1]) + 1
  }

  /** The last outcome used up the error budget of an endpoint that had been reachable. */
  predicate Exhausts(log: seq<bool>) {
    true in log && TrailingErrors(log) == MAX_CONSECUTIVE_ERRORS
  }

  lemma {:induction false} TrailingErrorsGrow(log: seq<bool>, i: nat)
    requires i <= |log| && true !in log[i..]
    ensures TrailingErrors(log) == TrailingErrors(log[..i]) + |log| - i
  {
    if i < |log| {
      var init := log[..|log| - 1];
      assert log[|log| - 1] in log[i..];
      assert init[i..] == log[i..][..|log| - 1 - i];
      TrailingErrorsGrow(init, i);
      assert init[..i] == log[..i];
    } else {
      assert log[..i] == log;
    }
  }

  /** An outage is reported once: between two reports there is a success. */
  lemma ExhaustedOncePerOutage(log: seq<bool>, i: nat, j: nat)
    requires i < j <= |log| && Exhausts(log[..i]) && Exhausts(log[..j])
    ensures true in log[i..j]
  {
    if true !in log[i..j] {
      assert log[..j][i..] == log[i..j] && log[..j][..i] == log[..i];
      TrailingErrorsGrow(log[..j], i);
    }
  }

  /** Times at which adjustments took effect are at least `gap` apart. */
  ghost predicate Spaced(times: seq<Time>, gap: nat) {
    forall i, j :: 0 <= i < j < |times| ==> times[i] + gap <= times[j]
  }

  class CrosvmEndpointState {
    var lastBalloon: Option<Time>
    var ready: bool
    var consecutiveErrors: nat
    /** Every outcome recorded, and every time an adjustment was made. */
    ghost var log: seq<bool>
    ghost var adjusted: seq<Time>

    ghost predicate Valid(gap: nat)
      reads this
    {
      && consecutiveErrors == TrailingErrors(log)
      && (ready <==> true in log && TrailingErrors(log) < MAX_CONSECUTIVE_ERRORS)
      && Spaced(adjusted, gap)
      && lastBalloon == (if adjusted == [] then None else Some(adjusted[|adjusted| - 1]))
    }

    constructor ()
      ensures forall gap: nat :: Valid(gap)
      ensures log == [] && adjusted == []
    {
      lastBalloon, ready, consecutiveErrors := None, false, 0;
      log, adjusted := [], [];
    }

    method RecordSuccess(ghost gap: nat)
      requires Valid(gap)
      modifies `ready, `consecutiveErrors, `log
      ensures Valid(gap) && log == old(log) + [true] && ready && consecutiveErrors == 0
    {
      ready := true;
      consecutiveErrors := 0;
      log := log + [true];
    }

    method RecordError(ghost gap: nat) returns (exhausted: bool)
      requires Valid(gap)
      modifies `ready, `consecutiveErrors, `log
      ensures Valid(gap) && log == old(log) + [false]
      ensures exhausted <==> Exhausts(log)
      ensures exhausted ==> !ready
    {
      assert (log + [false])[..|log|] == log;
      consecutiveErrors := consecutiveErrors + 1;
      exhausted := ready && consecutiveErrors >= MAX_CONSECUTIVE_ERRORS;
      if exhausted {
        ready := false;
      }
      log := log + [false];
    }

    /** The adjustment that an answer calls for: what the balloon decision wants of a plausible
        answer, once the minimum interval since the last one has passed. */
    ghost function Due(cfg: Config, gap: nat, now: Time, query: Option<(usize, usize)>):
      Option<usize>
      requires cfg.minimum <= cfg.maximum
      reads `lastBalloon
    {
      if query.None? || query.value.0 > cfg.maximum then None
      else if lastBalloon.Some? && now < lastBalloon.value + gap then None
      else cfg.Wanted(Stats(cfg.maximum - query.value.0, query.value.1))
    }

    /** The minimum interval since the last adjustment that succeeded is over. */
    ghost predicate Rested(gap: nat, now: Time)
      reads `adjusted
    {
      adjusted == [] || adjusted[|adjusted| - 1] + gap <= now
    }

    /** Sets the size that is wanted for these reports, unless the interval forbids it. */
    method Adjust(cfg: Config, gap: nat, now: Time, stats: Stats, applied: bool)
      returns (command: Option<usize>, ok: bool)
      requires Valid(gap) && cfg.minimum <= cfg.maximum
      requires adjusted != [] ==> adjusted[|adjusted| - 1] <= now
      modifies `lastBalloon, `adjusted
      ensures Valid(gap)
      ensures command == if old(Rested(gap, now)) then cfg.Wanted(stats) else None
      ensures adjusted == if command.Some? && applied then old(adjusted) + [now] else old(adjusted)
      ensures ok == (command.Some? ==> applied)
    {
      command := cfg.Wanted(stats);
      if lastBalloon.Some? && now < lastBalloon.value + gap {
        command := None;
      }
      if command.Some? {
        if !applied {
          return command, false;
        }
        lastBalloon := Some(now);
        adjusted := adjusted + [now];
      }
      return command, true;
    }

    /** Asking the endpoint and adjusting it: `query` is its answer (reclaimed and available
        bytes), `applied` whether setting the size succeeds. Only an adjustment that succeeded
        starts the minimum interval. */
    method Poll(cfg: Config, gap: nat, now: Time, query: Option<(usize, usize)>, applied: bool)
      returns (command: Option<usize>, ok: bool)
      requires Valid(gap) && cfg.minimum <= cfg.maximum
      requires adjusted != [] ==> adjusted[|adjusted| - 1] <= now
      modifies this
      ensures Valid(gap)
      ensures command == old(Due(cfg, gap, now, query))
      ensures adjusted == if command.Some? && applied then old(adjusted) + [now] else old(adjusted)
      ensures ok == (query.Some? && query.value.0 <= cfg.maximum && (command.Some? ==> applied))
      ensures log == old(log) + if query.Some? && !old(ready) then [true] else []
    {
      if query.None? {
        return None, false;
      }
      if !ready {
        RecordSuccess(gap);
      }
      if query.value.0 > cfg.maximum {
        return None, false;
      }
      command, ok :=
        Adjust(cfg, gap, now, Stats(cfg.maximum - query.value.0, query.value.1), applied);
    }

    /** One tick of the crosvm monitor: the result of the poll goes into the error budget. The
        interval delays an adjustment and does nothing else to it. */
    method Tick(cfg: Config, gap: nat, now: Time, query: Option<(usize, usize)>, applied: bool)
      returns (command: Option<usize>, exhausted: bool)
      requires Valid(gap) && cfg.minimum <= cfg.maximum
      requires adjusted != [] ==> adjusted[|adjusted| - 1] <= now
      modifies this
      ensures Valid(gap) && command == old(Due(cfg, gap, now, query))
      ensures !old(Rested(gap, now)) ==> command.None?
      ensures query.Some? && query.value.0 <= cfg.maximum && old(Rested(gap, now)) ==>
        command == cfg.Wanted(Stats(cfg.maximum - query.value.0, query.value.1))
      ensures adjusted == if command.Some? && applied then old(adjusted) + [now] else old(adjusted)
      ensures
        var ok := query.Some? && query.value.0 <= cfg.maximum && (command.Some? ==> applied);
        log == old(log) + (if query.Some? && !old(ready) then [true] else []) + [ok]
        && (exhausted <==> !ok && Exhausts(log))
    {
      var ok;
      command, ok := Poll(cfg, gap, now, query, applied);
      exhausted := false;
      if ok {
        RecordSuccess(gap);
      } else {
        exhausted := RecordError(gap);
      }
    }
  }
}
