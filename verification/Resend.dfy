/** Rate-limited retransmit requests (`ResendTracker`). */
module Resend {
  import opened Numbers

  /** Nanoseconds between requests for the same sequence number: 80 ms. */
  const RESEND_BACKOFF: nat := 80_000_000

  datatype Served = Served(last: map<int, nat>, due: seq<int>)

  function Elapsed(since: nat, now: nat): nat {
    if now >= since then now - since else 0
  }

  predicate Ready(last: map<int, nat>, number: int, now: nat) {
    number in last ==> Elapsed(last[number], now) >= RESEND_BACKOFF
  }

  function Retain(last: map<int, nat>, missing: seq<int>): map<int, nat> {
    map number | number in last && number in missing :: last[number]
  }

  function Request(s: Served, number: int, now: nat): Served {
    if Ready(s.last, number, now) then Served(s.last[number := now], s.due + [number]) else s
  }

  function ServeAll(last: map<int, nat>, missing: seq<int>, now: nat): Served {
    if missing == [] then Served(last, [])
    else Request(ServeAll(last, missing[..|missing| - 1], now), missing[|missing| - 1], now)
  }

  /** One call of `due`: prune what is no longer missing, then serve in order. */
  function DueResult(last: map<int, nat>, missing: seq<int>, now: nat): Served {
    ServeAll(Retain(last, missing), missing, now)
  }

  /** One service tick: an empty report returns before the tracker is touched. */
  function Serve(last: map<int, nat>, missing: seq<int>, now: nat): Served {
    if missing == [] then Served(last, []) else DueResult(last, missing, now)
  }

  class ResendTracker {
    var last: map<int, nat>

    constructor ()
      ensures last == map[]
    {
      last := map[];
    }

    method Due(missing: seq<int>, now: nat) returns (due: seq<int>)
      modifies this
      ensures Served(last, due) == DueResult(old(last), missing, now)
    {
      last := Retain(last, missing);
      ghost var kept := last;
      due := [];
      for i := 0 to |missing|
        invariant Served(last, due) == ServeAll(kept, missing[..i], now)
      {
        assert missing[..i + 1][..i] == missing[..i];
        var number := missing[i];
        if number !in last || Elapsed(last[number], now) >= RESEND_BACKOFF {
          last := last[number := now];
          due := due + [number];
        }
      }
      assert missing[..|missing|] == missing;
    }

    method Clear()
      modifies this
      ensures last == map[]
    {
      last := map[];
    }
  }

  ghost predicate NotAfter(last: map<int, nat>, now: nat) {
    forall number :: number in last ==> last[number] <= now
  }

  /** What one call leaves behind: exactly the missing numbers are tracked, each
      asked for less than the backoff ago; exactly the ready ones are due. */
  lemma {:induction false} DueIsExact(last: map<int, nat>, missing: seq<int>, now: nat)
    requires NotAfter(last, now)
    ensures var s := DueResult(last, missing, now);
            && (forall n :: n in s.last <==> n in missing)
            && (forall n :: n in s.last ==> s.last[n] <= now < s.last[n] + 80_000_000)
            && (forall n :: n in s.due <==> n in missing && Ready(last, n, now))
            && (forall n :: n in missing ==> s.last[n] == if Ready(last, n, now) then now else last[n])
  {
    ServeAllIsExact(Retain(last, missing), missing, now);
  }

  lemma {:induction false} ServeAllIsExact(last: map<int, nat>, missing: seq<int>, now: nat)
    requires NotAfter(last, now)
    ensures var s := ServeAll(last, missing, now);
            && (forall n :: n in s.last <==> n in last || n in missing)
            && (forall n :: n in s.due <==> n in missing && Ready(last, n, now))
            && (forall n :: n in s.last ==> s.last[n] == if n in missing && Ready(last, n, now) then now else last[n])
  {
    if missing != [] {
      var init, x := missing[..|missing| - 1], missing[|missing| - 1];
      ServeAllIsExact(last, init, now);
      assert forall n :: n in missing <==> n in init || n == x;
    }
  }

  // ----- Runs of service ticks -----

  datatype Tick = Tick(now: nat, missing: seq<int>)

  /** The tracker before tick `k`. */
  function Before(ticks: seq<Tick>, k: nat): map<int, nat>
    requires k <= |ticks|
  {
    if k == 0 then map[] else Serve(Before(ticks, k - 1), ticks[k - 1].missing, ticks[k - 1].now).last
  }

  predicate Requested(ticks: seq<Tick>, k: nat, number: int)
    requires k < |ticks|
  {
    number in Serve(Before(ticks, k), ticks[k].missing, ticks[k].now).due
  }

  ghost predicate Nondecreasing(ticks: seq<Tick>) {
    forall i, j :: 0 <= i <= j < |ticks| ==> ticks[i].now <= ticks[j].now
  }

  ghost predicate MissingThroughout(ticks: seq<Tick>, i: nat, j: nat, number: int)
    requires i <= j < |ticks|
  {
    forall k :: i <= k <= j ==> number in ticks[k].missing
  }

  lemma {:induction false} BeforeNotAfter(ticks: seq<Tick>, k: nat)
    requires k < |ticks| && Nondecreasing(ticks)
    ensures NotAfter(Before(ticks, k), ticks[k].now)
  {
    if k > 0 {
      BeforeNotAfter(ticks, k - 1);
      DueIsExact(Before(ticks, k - 1), ticks[k - 1].missing, ticks[k - 1].now);
    }
  }

  /** A tick at which `number` is missing either asks for it or leaves its
      request time alone. */
  lemma TickEffect(ticks: seq<Tick>, k: nat, number: int)
    requires k < |ticks| && Nondecreasing(ticks) && number in ticks[k].missing
    ensures var before, after := Before(ticks, k), Before(ticks, k + 1);
            && number in after
            && (Requested(ticks, k, number) <==> Ready(before, number, ticks[k].now))
            && after[number] == if Requested(ticks, k, number) then ticks[k].now else before[number]
  {
    BeforeNotAfter(ticks, k);
    DueIsExact(Before(ticks, k), ticks[k].missing, ticks[k].now);
  }

  lemma {:induction false} TimeKept(ticks: seq<Tick>, i: nat, j: nat, number: int)
    requires i < j < |ticks| && Nondecreasing(ticks) && MissingThroughout(ticks, i, j, number)
    requires Requested(ticks, i, number)
    requires forall k :: i < k < j ==> !Requested(ticks, k, number)
    ensures number in Before(ticks, j) && Before(ticks, j)[number] == ticks[i].now
  {
    if j == i + 1 {
      TickEffect(ticks, i, number);
    } else {
      TimeKept(ticks, i, j - 1, number);
      TickEffect(ticks, j - 1, number);
    }
  }

  /** Any two requests for a number that stays missing are at least the backoff
      apart. */
  lemma {:induction false} RequestsAreSpaced(ticks: seq<Tick>, i: nat, j: nat, number: int)
    requires i < j < |ticks| && Nondecreasing(ticks) && MissingThroughout(ticks, i, j, number)
    requires Requested(ticks, i, number) && Requested(ticks, j, number)
    ensures ticks[j].now - ticks[i].now >= 80_000_000
    decreases j - i
  {
    if k :| i < k < j && Requested(ticks, k, number) {
      RequestsAreSpaced(ticks, i, k, number);
    } else {
      TimeKept(ticks, i, j, number);
      TickEffect(ticks, j, number);
    }
  }

  /** Once the backoff has passed, a gap that persists has been asked for again,
      no later than one tick spacing after it passed. */
  lemma {:induction false} PersistentGapIsRerequested(ticks: seq<Tick>, i: nat, j: nat, number: int, spacing: nat)
    returns (k: nat)
    requires i < j < |ticks| && Nondecreasing(ticks) && MissingThroughout(ticks, i, j, number)
    requires Requested(ticks, i, number) && ticks[j].now - ticks[i].now >= 80_000_000
    requires forall t :: i <= t < j ==> ticks[t + 1].now - ticks[t].now <= spacing
    ensures i < k <= j && Requested(ticks, k, number)
    ensures ticks[k].now - ticks[i].now < 80_000_000 + spacing
    decreases j - i
  {
    if ticks[j - 1].now - ticks[i].now >= RESEND_BACKOFF {
      k := PersistentGapIsRerequested(ticks, i, j - 1, number, spacing);
    } else {
      forall t | i < t < j ensures !Requested(ticks, t, number) {
        if Requested(ticks, t, number) {
          RequestsAreSpaced(ticks, i, t, number);
        }
      }
      TimeKept(ticks, i, j, number);
      TickEffect(ticks, j, number);
      k := j;
    }
  }

  /** A gap is asked for the first time it is reported. */
  lemma {:induction false} FirstReportIsRequested(ticks: seq<Tick>, k: nat, number: int)
    requires k < |ticks| && Nondecreasing(ticks) && number in ticks[k].missing
    requires forall i :: 0 <= i < k ==> number !in ticks[i].missing
    ensures Requested(ticks, k, number)
  {
    NeverTracked(ticks, k, number);
    TickEffect(ticks, k, number);
  }

  lemma {:induction false} KeptWhileEmpty(ticks: seq<Tick>, i: nat, j: nat)
    requires i <= j <= |ticks| && forall k :: i <= k < j ==> ticks[k].missing == []
    ensures Before(ticks, j) == Before(ticks, i)
  {
    if i < j {
      KeptWhileEmpty(ticks, i, j - 1);
    }
  }

  lemma {:induction false} GoneStaysGone(ticks: seq<Tick>, i: nat, j: nat, number: int)
    requires i <= j <= |ticks| && Nondecreasing(ticks) && number !in Before(ticks, i)
    requires forall k :: i <= k < j ==> number !in ticks[k].missing
    ensures number !in Before(ticks, j)
  {
    if i < j {
      GoneStaysGone(ticks, i, j - 1, number);
      BeforeNotAfter(ticks, j - 1);
      DueIsExact(Before(ticks, j - 1), ticks[j - 1].missing, ticks[j - 1].now);
    }
  }

  /** A number that was asked for, vanished from the reports and is back: it is asked
      for at once exactly if some report in between listed other numbers, or the
      backoff has passed. Empty reports forget nothing. */
  lemma ReturnedIsRequestedIff(ticks: seq<Tick>, i: nat, j: nat, number: int)
    requires i < j < |ticks| && Nondecreasing(ticks)
    requires Requested(ticks, i, number) && number in ticks[i].missing && number in ticks[j].missing
    requires forall k :: i < k < j ==> number !in ticks[k].missing
    ensures Requested(ticks, j, number)
        <==> (exists k :: i < k < j && ticks[k].missing != []) || ticks[j].now - ticks[i].now >= 80_000_000
  {
    TickEffect(ticks, i, number);
    TickEffect(ticks, j, number);
    if k :| i < k < j && ticks[k].missing != [] {
      BeforeNotAfter(ticks, k);
      DueIsExact(Before(ticks, k), ticks[k].missing, ticks[k].now);
      GoneStaysGone(ticks, k + 1, j, number);
    } else {
      KeptWhileEmpty(ticks, i + 1, j);
    }
  }

  lemma {:induction false} NeverTracked(ticks: seq<Tick>, k: nat, number: int)
    requires k <= |ticks| && Nondecreasing(ticks)
    requires forall i :: 0 <= i < k ==> number !in ticks[i].missing
    ensures number !in Before(ticks, k)
  {
    if k > 0 {
      NeverTracked(ticks, k - 1, number);
      BeforeNotAfter(ticks, k - 1);
      DueIsExact(Before(ticks, k - 1), ticks[k - 1].missing, ticks[k - 1].now);
    }
  }
}
