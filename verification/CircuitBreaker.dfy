/** The batch runner's circuit breaker: `CircuitBreaker` and `StoryStatus` of
    `crates/said-forge/src/runner.rs`. */
module CircuitBreaker {
  import opened Text

  datatype StoryStatus =
    | Completed | Skipped
    | FailedNetwork | FailedRateLimit | FailedAuth | FailedParse | FailedContext | FailedOther

  /** The name of an outcome's class. */
  function ClassName(s: StoryStatus): string {
    match s
    case Completed => "completed"
    case Skipped => "skipped"
    case FailedNetwork => "network"
    case FailedRateLimit => "rate_limit"
    case FailedAuth => "auth"
    case FailedParse => "parse"
    case FailedContext => "context"
    case FailedOther => "other"
  }

  predicate IsFailure(s: StoryStatus) {
    !(s.Completed? || s.Skipped?)
  }

  /** Different outcomes have different class names, so comparing names compares outcomes. */
  lemma {:induction false} ClassesAreDistinct(s: StoryStatus, t: StoryStatus)
    ensures ClassName(s) == ClassName(t) <==> s == t
  {
  }

  // ---------- what the breaker remembers ----------

  /** How many outcomes at the end failed, back to the last completed or skipped one. */
  function Streak(history: seq<StoryStatus>): (k: nat)
    ensures k <= |history|
    ensures forall i :: |history| - k <= i < |history| ==> IsFailure(history[i])
    ensures k < |history| ==> !IsFailure(history[|history| - k - 1])
  {
    if history == [] || !IsFailure(history[|history| - 1]) then 0
    else 1 + Streak(history[..|history| - 1])
  }

  /** The class names of the streak, cut to the newest `threshold`. */
  function Window(history: seq<StoryStatus>, threshold: nat): seq<string> {
    var n, m := |history|, if Streak(history) < threshold then Streak(history) else threshold;
    seq(m, i requires 0 <= i < m => ClassName(history[n - m + i]))
  }

  predicate AllEqual(names: seq<string>) {
    forall i :: 0 <= i < |names| - 1 ==> names[i] == names[i + 1]
  }

  /** The rule the breaker is for: the last `threshold` outcomes all failed, all in the same class. */
  ghost predicate ShouldTrip(history: seq<StoryStatus>, threshold: nat) {
    var n := |history|;
    && 0 < n && threshold <= n && IsFailure(history[n - 1])
    && forall i :: n - threshold <= i < n ==> history[i] == history[n - 1]
  }

  class CircuitBreaker {
    const threshold: nat
    var recent: seq<string>
    ghost var history: seq<StoryStatus>

    ghost predicate Valid()
      reads this
    {
      recent == Window(history, threshold)
    }

    constructor (threshold: nat)
      ensures Valid() && history == [] && this.threshold == threshold
    {
      this.threshold := threshold;
      recent := [];
      history := [];
    }

    /** Tripped exactly when the rule holds of everything recorded so far. */
    method Record(s: StoryStatus) returns (tripped: bool)
      requires Valid()
      modifies this
      ensures Valid() && history == old(history) + [s]
      ensures tripped <==> ShouldTrip(history, threshold)
    {
      history := history + [s];
      WindowMoves(old(history), s, threshold);
      if s.Completed? || s.Skipped? {
        recent := [];
        return false;
      }
      recent := recent + [ClassName(s)];
      if |recent| > threshold {
        var dropCount := |recent| - threshold;
        recent := recent[dropCount..];
      }
      tripped := |recent| == threshold && AllEqual(recent);
      WindowDecides(history, threshold);
    }

    /** The class of the last outcome, if that was a failure. */
    method LastClass() returns (r: Option<string>)
      requires Valid()
      ensures r == if 0 < threshold && history != [] && IsFailure(history[|history| - 1])
                   then Some(ClassName(history[|history| - 1])) else None
    {
      if recent == [] {
        return None;
      }
      return Some(recent[|recent| - 1]);
    }
  }

  // ---------- the window is enough ----------

  /** How the window changes with one more outcome. */
  lemma {:induction false} WindowMoves(history: seq<StoryStatus>, s: StoryStatus, threshold: nat)
    ensures var now, grown := Window(history + [s], threshold), Window(history, threshold) + [ClassName(s)];
      now == if !IsFailure(s) then [] else if |grown| > threshold then grown[|grown| - threshold..] else grown
  {
    var all := history + [s];
    assert all[..|all| - 1] == history;
    assert Streak(all) == if IsFailure(s) then 1 + Streak(history) else 0;
    assert forall i :: 0 <= i < |history| ==> all[i] == history[i];
  }

  lemma {:induction false} AllEqualMeans(names: seq<string>, i: nat)
    requires AllEqual(names) && i < |names|
    ensures names[i] == names[|names| - 1]
    decreases |names| - i
  {
    if i < |names| - 1 {
      AllEqualMeans(names, i + 1);
    }
  }

  /** Looking only at the remembered names gives the same verdict as looking at the
      whole history, when the last outcome is a failure. */
  lemma {:induction false} WindowDecides(history: seq<StoryStatus>, threshold: nat)
    requires history != [] && IsFailure(history[|history| - 1])
    ensures var recent := Window(history, threshold);
      |recent| == threshold && AllEqual(recent) <==> ShouldTrip(history, threshold)
  {
    var n, k, recent := |history|, Streak(history), Window(history, threshold);
    if threshold > k {
      if threshold <= n {
        assert !IsFailure(history[n - k - 1]);
      }
    } else if AllEqual(recent) {
      forall i | n - threshold <= i < n ensures history[i] == history[n - 1] {
        AllEqualMeans(recent, i - (n - threshold));
        ClassesAreDistinct(history[i], history[n - 1]);
      }
    } else {
      var i :| 0 <= i < |recent| - 1 && recent[i] != recent[i + 1];
      assert history[n - threshold + i] != history[n - threshold + (i + 1)];
    }
  }
}
