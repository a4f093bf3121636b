/**
 * The debounce of setupObserver: a mutation batch that adds nodes cancels the pending
 * timer and starts a new one, so at most one rescan is ever waiting. Timer identities
 * stand for the handles setTimeout returns; the clock itself is not modelled.
 */
module Debounce {
  import opened Wrappers

  type TimerId = nat

  /** setupObserver.timeout, the timers still pending, and the handle setTimeout gives out next. */
  datatype Timers = Timers(timeout: Option<TimerId>, pending: set<TimerId>, next: TimerId)

  /** Before the first batch: no handle stored and nothing pending. */
  const NoTimers: Timers := Timers(None, {}, 1)

  /** Only the stored handle can be pending, and handles are given out in increasing order. */
  ghost predicate Invariant(s: Timers) {
    && (forall id :: id in s.pending ==> s.timeout == Some(id))
    && (s.timeout.Some? ==> s.timeout.value < s.next)
  }

  lemma NoTimersInvariant()
    ensures Invariant(NoTimers)
  {
  }

  /** The invariant means at most one timer is ever pending. */
  lemma AtMostOnePending(s: Timers)
    requires Invariant(s)
    ensures |s.pending| <= 1
  {
    if s.timeout.Some? && s.timeout.value in s.pending {
      assert s.pending == {s.timeout.value};
    } else {
      assert s.pending == {};
    }
  }

  /** clearTimeout(id): cancelling an undefined or already fired handle does nothing. */
  function ClearTimeout(s: Timers, id: Option<TimerId>): (r: Timers)
    ensures r.timeout == s.timeout && r.next == s.next
    ensures id.Some? ==> r.pending == s.pending - {id.value}
    ensures id.None? ==> r == s
  {
    if id.Some? then s.(pending := s.pending - {id.value}) else s
  }

  /** `setupObserver.timeout = setTimeout(…, 100)`: a fresh handle, pending and stored. */
  function SetTimeout(s: Timers): (r: Timers)
    ensures r.timeout == Some(s.next) && r.pending == s.pending + {s.next} && r.next > s.next
  {
    Timers(Some(s.next), s.pending + {s.next}, s.next + 1)
  }

  /** The reaction to a qualifying batch: cancel the stored timer, start a new one. */
  function Restart(s: Timers): Timers {
    SetTimeout(ClearTimeout(s, s.timeout))
  }

  /** After a restart exactly the new timer is pending; the one stored before is cancelled. */
  lemma RestartReplacesPending(s: Timers)
    requires Invariant(s)
    ensures Invariant(Restart(s))
    ensures Restart(s).pending == {s.next}
    ensures Restart(s).timeout == Some(s.next)
    ensures s.timeout.Some? ==> s.timeout.value !in Restart(s).pending
  {
    assert ClearTimeout(s, s.timeout).pending == {};
  }

  /** Some mutation record of the batch added nodes; `batch` holds each record's addedNodes.length. */
  predicate AnyAdded(batch: seq<nat>) {
    exists k :: 0 <= k < |batch| && batch[k] > 0
  }

  /** The loop over a batch, leaving it at the first record that added nodes. */
  method ShouldScan(batch: seq<nat>) returns (shouldScan: bool)
    ensures shouldScan == AnyAdded(batch)
  {
    shouldScan := false;
    for i := 0 to |batch|
      invariant !shouldScan
      invariant forall j :: 0 <= j < i ==> batch[j] == 0
    {
      if batch[i] > 0 {
        shouldScan := true;
        break;
      }
    }
  }

  /** The observer callback's effect on the timers. */
  function OnMutations(s: Timers, batch: seq<nat>): (r: Timers)
    ensures !AnyAdded(batch) ==> r == s
    ensures AnyAdded(batch) ==> r == Restart(s)
  {
    if AnyAdded(batch) then Restart(s) else s
  }

  /** Every batch keeps at most one timer pending. */
  lemma OnMutationsKeepsInvariant(s: Timers, batch: seq<nat>)
    requires Invariant(s)
    ensures Invariant(OnMutations(s, batch))
    ensures |OnMutations(s, batch).pending| <= 1
  {
    if AnyAdded(batch) {
      RestartReplacesPending(s);
    }
    AtMostOnePending(OnMutations(s, batch));
  }

  /** A pending timer fires and is pending no more; the stored handle is left as it is. */
  function Fire(s: Timers, id: TimerId): (r: Timers)
    requires id in s.pending
    ensures r.pending == s.pending - {id} && r.timeout == s.timeout && r.next == s.next
    ensures Invariant(s) ==> Invariant(r) && r.pending == {}
  {
    s.(pending := s.pending - {id})
  }
}
