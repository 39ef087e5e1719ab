/** What one discovery round of `waybackmachine_pages` produces, and how the
    rounds are folded into the result set. Both versions of the round loop
    share this; they differ only in what an exception inside a round does:
    the package version catches it and stops (`catching`), the top-level
    version lets it escape the whole call. */
module Rounds {
  import opened Common

  datatype RoundOutcome =
    | Continue(pairs: seq<UrlStatus>)  // the checker's pairs for a non-empty URL list
    | NoContent                        // no contentful URL: `break`
    | Failed                           // an exception was raised inside the round

  /** The URL list a round hands to the checker, or why there is none. */
  datatype RoundInput = Urls(urls: seq<Url>) | NoUrls | Raises

  datatype State = Running | Stopped | Raised

  datatype Progress = Progress(links: set<UrlStatus>, rounds: nat, state: State)

  /** The test in front of `links_set.add`: in broken-only mode only 404s. */
  predicate Wanted(p: UrlStatus, brokenOnly: bool) {
    brokenOnly ==> p.status == Some(NOT_FOUND)
  }

  function Keep(pairs: seq<UrlStatus>, brokenOnly: bool): (kept: seq<UrlStatus>)
    ensures forall p :: p in kept <==> p in pairs && Wanted(p, brokenOnly)
  {
    Filter(pairs, p => Wanted(p, brokenOnly))
  }

  /** Offering one more pair to the loop's test adds it to the set exactly
      when it passes. */
  lemma KeepSnoc(pairs: seq<UrlStatus>, pair: UrlStatus, brokenOnly: bool)
    ensures ToSet(Keep(pairs + [pair], brokenOnly))
            == ToSet(Keep(pairs, brokenOnly)) + (if Wanted(pair, brokenOnly) then {pair} else {})
  {
    FilterSnoc(pairs, pair, p => Wanted(p, brokenOnly));
  }

  /** The outcomes rounds `0 .. n - 1` would have if they all ran. */
  function Tabulate(round: nat -> RoundOutcome, n: nat): (outs: seq<RoundOutcome>)
    ensures |outs| == n
    ensures forall i :: 0 <= i < n ==> outs[i] == round(i)
  {
    if n == 0 then [] else Tabulate(round, n - 1) + [round(n - 1)]
  }

  lemma TabulatePrefix(round: nat -> RoundOutcome, k: nat, n: nat)
    requires k <= n
    ensures Tabulate(round, n)[..k] == Tabulate(round, k)
  {
  }

  /** Leaving the loop in round `i` fixes the final state. */
  lemma StopInRound(round: nat -> RoundOutcome, i: nat, n: nat, brokenOnly: bool, catching: bool)
    requires i < n
    requires Accumulate(Tabulate(round, i), brokenOnly, catching).state == Running
    requires !round(i).Continue?
    ensures Accumulate(Tabulate(round, n), brokenOnly, catching)
            == Progress(Accumulate(Tabulate(round, i), brokenOnly, catching).links, i + 1,
                        if round(i).Failed? && !catching then Raised else Stopped)
  {
    var prev := Accumulate(Tabulate(round, i), brokenOnly, catching);
    var stopped := Progress(prev.links, i + 1, if round(i).Failed? && !catching then Raised else Stopped);
    AccumulateTabulateStep(round, i, brokenOnly, catching);
    assert Accumulate(Tabulate(round, i + 1), brokenOnly, catching) == stopped;
    TabulatePrefix(round, i + 1, n);
    assert Tabulate(round, n)[..i + 1] == Tabulate(round, i + 1);
    AccumulateSticky(Tabulate(round, n), i + 1, brokenOnly, catching);
  }

  /** Round `i` is one more pass of the loop body. */
  lemma AccumulateTabulateStep(round: nat -> RoundOutcome, i: nat, brokenOnly: bool, catching: bool)
    ensures Accumulate(Tabulate(round, i + 1), brokenOnly, catching)
            == Step(Accumulate(Tabulate(round, i), brokenOnly, catching), round(i), brokenOnly, catching)
  {
    assert Tabulate(round, i + 1) == Tabulate(round, i) + [round(i)];
    AccumulateSnoc(Tabulate(round, i), round(i), brokenOnly, catching);
  }

  /** One more round whose contentful URL list was non-empty (the checker
      may still have returned no pair). */
  lemma ContinueRound(round: nat -> RoundOutcome, i: nat, brokenOnly: bool, catching: bool)
    requires Accumulate(Tabulate(round, i), brokenOnly, catching).state == Running
    requires round(i).Continue?
    ensures Accumulate(Tabulate(round, i + 1), brokenOnly, catching)
            == Progress(Accumulate(Tabulate(round, i), brokenOnly, catching).links
                          + ToSet(Keep(round(i).pairs, brokenOnly)), i + 1, Running)
  {
    AccumulateTabulateStep(round, i, brokenOnly, catching);
  }

  /** Offering one more round is one more pass of the loop body. */
  lemma AccumulateSnoc(outs: seq<RoundOutcome>, outcome: RoundOutcome, brokenOnly: bool, catching: bool)
    ensures Accumulate(outs + [outcome], brokenOnly, catching)
            == Step(Accumulate(outs, brokenOnly, catching), outcome, brokenOnly, catching)
  {
    assert (outs + [outcome])[..|outs|] == outs;
  }

  /** One pass of the loop body: a running loop adds the round's wanted
      pairs or is left; a loop already left stays as it is. */
  function Step(prev: Progress, outcome: RoundOutcome, brokenOnly: bool, catching: bool): (p: Progress)
    ensures prev.state != Running ==> p == prev
    ensures prev.state == Running ==> p.rounds == prev.rounds + 1 && prev.links <= p.links
    ensures prev.state == Running ==> (p.state == Running <==> outcome.Continue?)
  {
    if prev.state != Running then prev
    else match outcome
      case Continue(pairs) => Progress(prev.links + ToSet(Keep(pairs, brokenOnly)), prev.rounds + 1, Running)
      case NoContent => Progress(prev.links, prev.rounds + 1, Stopped)
      case Failed => Progress(prev.links, prev.rounds + 1, if catching then Stopped else Raised)
  }

  /** The state of the loop after the rounds in `outs` have been offered to it:
      the set so far, how many rounds ran, and whether it has left the loop. */
  function Accumulate(outs: seq<RoundOutcome>, brokenOnly: bool, catching: bool): (p: Progress)
    ensures p.rounds <= |outs|
    ensures p.state == Running ==> p.rounds == |outs|
    ensures catching ==> p.state != Raised
    decreases |outs|
  {
    if |outs| == 0 then Progress({}, 0, Running)
    else Step(Accumulate(outs[..|outs| - 1], brokenOnly, catching), outs[|outs| - 1], brokenOnly, catching)
  }

  /** Once the loop has been left, later rounds change nothing. */
  lemma {:induction false} AccumulateSticky(outs: seq<RoundOutcome>, k: nat, brokenOnly: bool, catching: bool)
    requires k <= |outs|
    requires Accumulate(outs[..k], brokenOnly, catching).state != Running
    ensures Accumulate(outs, brokenOnly, catching) == Accumulate(outs[..k], brokenOnly, catching)
    decreases |outs|
  {
    if k < |outs| {
      var outs' := outs[..|outs| - 1];
      assert outs'[..k] == outs[..k];
      AccumulateSticky(outs', k, brokenOnly, catching);
    } else {
      assert outs[..k] == outs;
    }
  }

  /** The set only grows from round to round. */
  lemma {:induction false} AccumulateMonotone(outs: seq<RoundOutcome>, k: nat, brokenOnly: bool, catching: bool)
    requires k <= |outs|
    ensures Accumulate(outs[..k], brokenOnly, catching).links <= Accumulate(outs, brokenOnly, catching).links
    decreases |outs|
  {
    if k < |outs| {
      var outs' := outs[..|outs| - 1];
      assert outs'[..k] == outs[..k];
      AccumulateMonotone(outs', k, brokenOnly, catching);
    } else {
      assert outs[..k] == outs;
    }
  }

  /** As long as every round had a non-empty contentful URL list, the loop
      is still running. */
  lemma {:induction false} AccumulateAllContinue(outs: seq<RoundOutcome>, brokenOnly: bool, catching: bool)
    requires forall i :: 0 <= i < |outs| ==> outs[i].Continue?
    ensures Accumulate(outs, brokenOnly, catching).state == Running
    ensures Accumulate(outs, brokenOnly, catching).rounds == |outs|
    decreases |outs|
  {
    if |outs| > 0 {
      AccumulateAllContinue(outs[..|outs| - 1], brokenOnly, catching);
    }
  }

  /** The loop ends at the first round that raised or whose contentful URL
      list was empty: that round is counted,
      the pairs of the earlier rounds are kept, and nothing later is added.
      A failed round stops the package loop and raises in the top-level one. */
  lemma AccumulateFirstStop(outs: seq<RoundOutcome>, j: nat, brokenOnly: bool, catching: bool)
    requires j < |outs| && !outs[j].Continue?
    requires forall i :: 0 <= i < j ==> outs[i].Continue?
    ensures Accumulate(outs, brokenOnly, catching).rounds == j + 1
    ensures Accumulate(outs, brokenOnly, catching).links == Accumulate(outs[..j], brokenOnly, catching).links
    ensures Accumulate(outs, brokenOnly, catching).state ==
              if outs[j].Failed? && !catching then Raised else Stopped
  {
    AccumulateAllContinue(outs[..j], brokenOnly, catching);
    assert outs[..j + 1][..j] == outs[..j];
    AccumulateSticky(outs, j + 1, brokenOnly, catching);
  }

  /** Round `j` ran to the end and `x` was added in it. */
  predicate AddedIn(outs: seq<RoundOutcome>, j: nat, brokenOnly: bool, x: UrlStatus)
    requires j < |outs|
  {
    outs[j].Continue? && x in Keep(outs[j].pairs, brokenOnly)
  }

  /** One of the first `k` rounds ran to the end and added `x`. */
  predicate AddedBefore(outs: seq<RoundOutcome>, k: nat, brokenOnly: bool, x: UrlStatus)
    requires k <= |outs|
  {
    exists j :: 0 <= j < k && AddedIn(outs, j, brokenOnly, x)
  }

  lemma AddedBeforeSnoc(outs: seq<RoundOutcome>, k: nat, brokenOnly: bool, x: UrlStatus)
    requires k < |outs|
    ensures AddedBefore(outs, k + 1, brokenOnly, x) <==>
            AddedBefore(outs, k, brokenOnly, x) || AddedIn(outs, k, brokenOnly, x)
  {
    if AddedBefore(outs, k + 1, brokenOnly, x) && !AddedIn(outs, k, brokenOnly, x) {
      var j :| 0 <= j < k + 1 && AddedIn(outs, j, brokenOnly, x);
      assert j < k;
    }
  }

  /** What the first `n` rounds added depends only on those rounds. */
  lemma AddedInPrefix(outs: seq<RoundOutcome>, outs': seq<RoundOutcome>, n: nat, brokenOnly: bool, x: UrlStatus)
    requires n <= |outs| && n <= |outs'| && outs[..n] == outs'[..n]
    ensures AddedBefore(outs, n, brokenOnly, x) <==> AddedBefore(outs', n, brokenOnly, x)
  {
    forall j | 0 <= j < n
      ensures AddedIn(outs, j, brokenOnly, x) == AddedIn(outs', j, brokenOnly, x)
    {
      assert outs[j] == outs[..n][j] == outs'[j];
    }
  }

  /** A pair is in the result exactly when a round that ran produced it and
      it passed the broken-only test; identical pairs from several rounds are
      one element of the set. */
  lemma {:induction false} AccumulateMembers(outs: seq<RoundOutcome>, brokenOnly: bool, catching: bool, x: UrlStatus)
    ensures x in Accumulate(outs, brokenOnly, catching).links <==>
              AddedBefore(outs, Accumulate(outs, brokenOnly, catching).rounds, brokenOnly, x)
    decreases |outs|
  {
    if |outs| > 0 {
      var n := |outs| - 1;
      var outs' := outs[..n];
      var prev := Accumulate(outs', brokenOnly, catching);
      AccumulateMembers(outs', brokenOnly, catching, x);
      assert outs[..prev.rounds] == outs'[..prev.rounds];
      AddedInPrefix(outs, outs', prev.rounds, brokenOnly, x);
      assert Accumulate(outs, brokenOnly, catching) == Step(prev, outs[n], brokenOnly, catching);
      if prev.state == Running {
        AddedBeforeSnoc(outs, n, brokenOnly, x);
      }
    }
  }

  /** In broken-only mode every element of the result has status 404. */
  lemma BrokenOnlyAll404(outs: seq<RoundOutcome>, catching: bool)
    ensures forall x :: x in Accumulate(outs, true, catching).links ==> x.status == Some(NOT_FOUND)
  {
    forall x | x in Accumulate(outs, true, catching).links
      ensures x.status == Some(NOT_FOUND)
    {
      AccumulateMembers(outs, true, catching, x);
    }
  }
  /** The inner `for` loop of a round (the same in both
      versions): every pair the checker returned is
      added, in broken-only mode only the 404s. */
  method AddPairs(linksSet: set<UrlStatus>, urlsWithStatus: seq<UrlStatus>, brokenOnly: bool)
    returns (added: set<UrlStatus>)
    ensures added == linksSet + ToSet(Keep(urlsWithStatus, brokenOnly))
  {
    added := linksSet;
    var k := 0;
    while k < |urlsWithStatus|
      invariant 0 <= k <= |urlsWithStatus|
      invariant added == linksSet + ToSet(Keep(urlsWithStatus[..k], brokenOnly))
    {
      var pair := urlsWithStatus[k];
      assert urlsWithStatus[..k + 1] == urlsWithStatus[..k] + [pair];
      KeepSnoc(urlsWithStatus[..k], pair, brokenOnly);
      if brokenOnly && pair.status == Some(NOT_FOUND) {
        added := added + {pair};
      } else if !brokenOnly {
        added := added + {pair};
      }
      k := k + 1;
    }
    assert urlsWithStatus[..k] == urlsWithStatus;
  }

}
