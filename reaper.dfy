/** Deleting a scratch directory (`safe_rmtree` and its two copies
    `_safe_rmtree`): up to `attempts` strict removals with a pause after each
    failure, then one forced removal that ignores per-file errors. What each
    removal does is an input: `outcome(k)` is how the k-th strict removal ends,
    and `forcedRaises` says whether the forced removal raises all the same. */
module Reaper {
  import opened Wrappers
  import opened Effects

  /** How one strict `shutil.rmtree(path)` ends. */
  datatype Attempt = Removed | Failed(error: OsError)

  /** The default number of strict attempts. */
  const DefaultAttempts: int := 6

  /** `range(attempts)` has this many elements. */
  function Rounds(attempts: int): nat {
    if attempts < 0 then 0 else attempts
  }

  /** The first `n` strict attempts all failed. */
  predicate FailedFirst(outcome: nat -> Attempt, n: nat) {
    forall k :: 0 <= k < n ==> outcome(k).Failed?
  }

  /** `n` failed rounds: a strict removal followed by a pause, `n` times. */
  function FailedRounds(path: string, n: nat): (s: seq<Effect>)
    ensures |s| == 2 * n
  {
    if n == 0 then [] else FailedRounds(path, n - 1) + [RemoveTree(path), Sleep]
  }

  /** The calls made from the k-th strict attempt on. */
  function RetryFrom(path: string, attempts: int, outcome: nat -> Attempt, k: nat): seq<Effect>
    decreases attempts - k
  {
    if attempts <= k then [ForceRemoveTree(path)]
    else if outcome(k).Removed? then [RemoveTree(path)]
    else [RemoveTree(path), Sleep] + RetryFrom(path, attempts, outcome, k + 1)
  }

  /** Every call the reaper makes, in order. */
  function ReaperCalls(path: string, pathExists: bool, attempts: int, outcome: nat -> Attempt): seq<Effect>
  {
    if !pathExists then [] else RetryFrom(path, attempts, outcome, 0)
  }

  /** The failure re-raised at the end, if any: the last strict failure, when
      every strict attempt failed and the forced removal raised too. */
  function Reraised(pathExists: bool, attempts: int, outcome: nat -> Attempt, forcedRaises: bool): Option<OsError>
  {
    if pathExists && attempts >= 1 && FailedFirst(outcome, Rounds(attempts)) && forcedRaises
    then Some(outcome(attempts - 1).error)
    else None
  }

  /** `safe_rmtree(path, attempts)`: the retry loop remembering the last failure,
      the forced removal, and the re-raise of that failure only when the forced
      removal raises too. */
  method SafeRmtree(path: string, pathExists: bool, attempts: int, outcome: nat -> Attempt, forcedRaises: bool)
    returns (calls: seq<Effect>, raised: Option<OsError>)
    ensures calls == ReaperCalls(path, pathExists, attempts, outcome)
    ensures raised.Some? <==> pathExists && FailedFirst(outcome, Rounds(attempts)) && forcedRaises && attempts >= 1
    ensures raised.Some? ==> raised.value == outcome(attempts - 1).error
    ensures raised == Reraised(pathExists, attempts, outcome, forcedRaises)
  {
    calls := [];
    raised := None;
    if !pathExists {
      return;
    }
    var lastExc: Option<OsError> := None;
    var k := 0;
    while k < attempts
      invariant 0 <= k <= Rounds(attempts)
      invariant FailedFirst(outcome, k)
      invariant calls == FailedRounds(path, k)
      invariant RetryFrom(path, attempts, outcome, 0) == calls + RetryFrom(path, attempts, outcome, k)
      invariant lastExc.Some? <==> k > 0
      invariant k > 0 ==> lastExc.value == outcome(k - 1).error
    {
      calls := calls + [RemoveTree(path)];
      match outcome(k) {
        case Removed =>
          return;
        case Failed(exc) =>
          lastExc := Some(exc);
          RoundStep(path, attempts, outcome, k, calls[..|calls| - 1]);
          calls := calls + [Sleep];
      }
      k := k + 1;
    }
    calls := calls + [ForceRemoveTree(path)];
    if forcedRaises {
      if lastExc.Some? {
        raised := lastExc;
      }
    }
  }

  /** One failed round extends both the closed form and the recursive one. */
  lemma RoundStep(path: string, attempts: int, outcome: nat -> Attempt, k: nat, done: seq<Effect>)
    requires k < attempts && outcome(k).Failed?
    requires done == FailedRounds(path, k)
    requires RetryFrom(path, attempts, outcome, 0) == done + RetryFrom(path, attempts, outcome, k)
    ensures done + [RemoveTree(path)] + [Sleep] == FailedRounds(path, k + 1)
    ensures RetryFrom(path, attempts, outcome, 0)
            == done + [RemoveTree(path)] + [Sleep] + RetryFrom(path, attempts, outcome, k + 1)
  {
    var rest := RetryFrom(path, attempts, outcome, k + 1);
    assert done + [RemoveTree(path)] + [Sleep] == done + [RemoveTree(path), Sleep];
    assert done + ([RemoveTree(path), Sleep] + rest) == done + [RemoveTree(path), Sleep] + rest;
  }

  /** The whole call sequence in closed form: `n` failed rounds, where `n` counts
      the failures before the first success (or all rounds), then either the
      successful strict removal or the one forced removal. */
  lemma {:induction false} ReaperCallsClosedForm(path: string, attempts: int, outcome: nat -> Attempt, n: nat)
    requires n <= Rounds(attempts) && FailedFirst(outcome, n)
    requires n == Rounds(attempts) || outcome(n).Removed?
    ensures ReaperCalls(path, true, attempts, outcome)
            == FailedRounds(path, n) + (if n < Rounds(attempts) then [RemoveTree(path)] else [ForceRemoveTree(path)])
  {
    RetryFromSplit(path, attempts, outcome, n);
  }

  lemma {:induction false} RetryFromSplit(path: string, attempts: int, outcome: nat -> Attempt, n: nat)
    requires n <= Rounds(attempts) && FailedFirst(outcome, n)
    ensures RetryFrom(path, attempts, outcome, 0) == FailedRounds(path, n) + RetryFrom(path, attempts, outcome, n)
  {
    if n > 0 {
      RetryFromSplit(path, attempts, outcome, n - 1);
      assert RetryFrom(path, attempts, outcome, n - 1)
             == [RemoveTree(path), Sleep] + RetryFrom(path, attempts, outcome, n);
    }
  }

  /** Whatever the outcomes, the last call on an existing path is a removal of
      it: the successful strict one or the forced one. */
  lemma {:induction false} RetryFromEndsWithRemoval(path: string, attempts: int, outcome: nat -> Attempt, k: nat)
    ensures var calls := RetryFrom(path, attempts, outcome, k);
      calls != [] && (calls[|calls| - 1] == RemoveTree(path) || calls[|calls| - 1] == ForceRemoveTree(path))
    decreases attempts - k
  {
    if k < attempts && outcome(k).Failed? {
      RetryFromEndsWithRemoval(path, attempts, outcome, k + 1);
    }
  }

  /** Nothing happens when the path does not exist. */
  lemma AbsentPathIsLeftAlone(path: string, attempts: int, outcome: nat -> Attempt)
    ensures ReaperCalls(path, false, attempts, outcome) == []
  {
  }

  /** At most `attempts` strict removals, one pause after each failed one, and
      the first success ends the calls with no forced removal. */
  lemma {:induction false} ReaperAttemptBound(path: string, attempts: int, outcome: nat -> Attempt, n: nat)
    requires n <= Rounds(attempts) && FailedFirst(outcome, n)
    requires n == Rounds(attempts) || outcome(n).Removed?
    ensures var calls := ReaperCalls(path, true, attempts, outcome);
      && Count(calls, RemoveTree(path)) <= Rounds(attempts)
      && Count(calls, Sleep) == n
      && Count(calls, RemoveTree(path)) == (if n < Rounds(attempts) then n + 1 else n)
      && (n < Rounds(attempts) ==> ForceRemoveTree(path) !in calls && calls[|calls| - 1] == RemoveTree(path))
  {
    ReaperCallsClosedForm(path, attempts, outcome, n);
    var last := if n < Rounds(attempts) then RemoveTree(path) else ForceRemoveTree(path);
    TailCounts(FailedRounds(path, n), last, RemoveTree(path));
    TailCounts(FailedRounds(path, n), last, Sleep);
    TailCounts(FailedRounds(path, n), last, ForceRemoveTree(path));
    FailedRoundsCount(path, n, RemoveTree(path));
    FailedRoundsCount(path, n, Sleep);
    FailedRoundsCount(path, n, ForceRemoveTree(path));
  }

  lemma TailCounts(rounds: seq<Effect>, last: Effect, e: Effect)
    ensures Count(rounds + [last], e) == Count(rounds, e) + (if last == e then 1 else 0)
  {
    CountAppend(rounds, [last], e);
    CountOne(last, e);
  }

  /** Failed rounds hold `n` strict removals, `n` pauses and nothing else. */
  lemma {:induction false} FailedRoundsCount(path: string, n: nat, e: Effect)
    ensures Count(FailedRounds(path, n), e) == (if e == RemoveTree(path) || e == Sleep then n else 0)
  {
    if n > 0 {
      FailedRoundsCount(path, n - 1, e);
      CountAppend(FailedRounds(path, n - 1), [RemoveTree(path), Sleep], e);
      CountPair(RemoveTree(path), Sleep, e);
    }
  }

  /** The forced removal happens exactly when every strict attempt failed, once,
      as the last call. */
  lemma {:induction false} ForcedRemovalOnlyAfterAllFail(path: string, attempts: int, outcome: nat -> Attempt)
    ensures var calls := ReaperCalls(path, true, attempts, outcome);
      && (ForceRemoveTree(path) in calls <==> FailedFirst(outcome, Rounds(attempts)))
      && (ForceRemoveTree(path) in calls ==>
            Count(calls, ForceRemoveTree(path)) == 1 && calls[|calls| - 1] == ForceRemoveTree(path))
  {
    var n := LeadingFailures(outcome, Rounds(attempts), 0);
    ReaperCallsClosedForm(path, attempts, outcome, n);
    var tail := if n < Rounds(attempts) then [RemoveTree(path)] else [ForceRemoveTree(path)];
    CountAppend(FailedRounds(path, n), tail, ForceRemoveTree(path));
    FailedRoundsCount(path, n, RemoveTree(path));
    FailedRoundsCount(path, n, Sleep);
    FailedRoundsCount(path, n, ForceRemoveTree(path));
  }

  /** The number of failures before the first success, capped at `rounds`. */
  function LeadingFailures(outcome: nat -> Attempt, rounds: nat, k: nat): (n: nat)
    requires k <= rounds && FailedFirst(outcome, k)
    ensures k <= n <= rounds && FailedFirst(outcome, n)
    ensures n == rounds || outcome(n).Removed?
    decreases rounds - k
  {
    if k == rounds || outcome(k).Removed? then k else LeadingFailures(outcome, rounds, k + 1)
  }
}
