/** The older top-level `waybackmachine_pages`: the same round loop as the
    package version, built on the top-level `get_wayback_urls` and
    `check_availability`, and with no `try`: an exception raised inside a
    round leaves the whole call, so no set is returned at all. The progress
    messages and the one-second pause are not modelled. */
module RootPages {
  import opened Common
  import opened History
  import RootChecker
  import opened Rounds
  import Pages

  /** Top-level `get_wayback_urls` + `filter_urls` + `tolist()`: the request
      itself may raise, and so may the column lookup. */
  function RootRoundUrls(reply: CdxReply): (input: RoundInput)
    ensures input.Urls? ==> |input.urls| > 0 && NoDup(input.urls)
    ensures reply.FetchFailed? ==> input == Raises
  {
    match RootGetWaybackUrls(reply)
    case None => Raises
    case Some(frame) => Pages.FrameUrls(frame)
  }

  /** What a round of the top-level loop hands to the set loop. */
  function RootRound(reply: CdxReply, probe: Prober, brokenOnly: bool): (outcome: RoundOutcome)
    ensures outcome.Continue? <==> RootRoundUrls(reply).Urls?
    ensures outcome.Failed? <==> RootRoundUrls(reply) == Raises
  {
    match RootRoundUrls(reply)
    case Raises => Failed
    case NoUrls => NoContent
    case Urls(urls) => Continue(RootChecker.Select(RootChecker.ProbeAll(urls, probe), brokenOnly))
  }

  /** Round `i` as a function of its index. */
  function RootRoundOf(replies: nat -> CdxReply, probers: nat -> Prober, brokenOnly: bool): nat -> RoundOutcome {
    (i: nat) => RootRound(replies(i), probers(i), brokenOnly)
  }

  /** The body of one round up to the set update: fetch the index, keep the
      contentful URLs, probe them. A raised exception, a round without URLs
      and the checker's pairs are the three outcomes. */
  method CheckRound(reply: CdxReply, probe: Prober, brokenOnly: bool) returns (outcome: RoundOutcome)
    ensures outcome == RootRound(reply, probe, brokenOnly)
  {
    var urlsDf := RootGetWaybackUrls(reply);
    if urlsDf.None? {
      // the request or the JSON decoding raised
      return Failed;
    }
    var column := ColumnOf(urlsDf.value, ORIGINAL);
    if column.None? {
      return Failed;
    }
    var filtered := FilterUrls(column.value);
    if |filtered| == 0 {
      return NoContent;
    }
    var urls := Values(filtered);
    var urlsWithStatus := RootChecker.CheckAvailability(urls, probe, brokenOnly);
    return Continue(urlsWithStatus);
  }

  /** `waybackmachine_pages(domain, iterations, broken_links_only)` of the
      top-level module. `None` stands for the exception that escapes the call;
      besides the result it reports how many rounds were started. */
  method WaybackmachinePages(replies: nat -> CdxReply, probers: nat -> Prober, iterations: int, brokenOnly: bool)
    returns (result: Option<set<UrlStatus>>, rounds: nat)
    ensures var p := Accumulate(Tabulate(RootRoundOf(replies, probers, brokenOnly), Max0(iterations)), brokenOnly, false);
            rounds == p.rounds
            && (result.None? <==> p.state == Raised)
            && (result.Some? ==> result.value == p.links)
    ensures rounds <= Max0(iterations)
    ensures brokenOnly && result.Some? ==> forall x :: x in result.value ==> x.status == Some(NOT_FOUND)
  {
    var n := Max0(iterations);
    var linksSet := {};
    ghost var round := RootRoundOf(replies, probers, brokenOnly);
    rounds := 0;
    var i := 0;
    while i < iterations
      invariant 0 <= i <= n && rounds == i
      invariant Accumulate(Tabulate(round, i), brokenOnly, false) == Progress(linksSet, i, Running)
    {
      rounds := i + 1;
      var outcome := CheckRound(replies(i), probers(i), brokenOnly);
      assert outcome == round(i);
      match outcome
      case Failed =>
        // nothing catches the exception: it leaves the call
        StopInRound(round, i, n, brokenOnly, false);
        return None, rounds;
      case NoContent =>
        StopInRound(round, i, n, brokenOnly, false);
        break;
      case Continue(urlsWithStatus) =>
        linksSet := AddPairs(linksSet, urlsWithStatus, brokenOnly);
        ContinueRound(round, i, brokenOnly, false);
        i := i + 1;
    }
    result := Some(linksSet);
    if brokenOnly {
      BrokenOnlyAll404(Tabulate(round, n), false);
    }
  }

  /** Every pair a round hands over passed the top-level checker's test. */
  lemma RootRoundPairsKept(reply: CdxReply, probe: Prober, brokenOnly: bool, x: UrlStatus)
    requires RootRound(reply, probe, brokenOnly).Continue?
    requires x in RootRound(reply, probe, brokenOnly).pairs
    ensures RootChecker.Kept(x, brokenOnly)
  {
    var urls := RootRoundUrls(reply).urls;
    assert RootRound(reply, probe, brokenOnly).pairs == RootChecker.Select(RootChecker.ProbeAll(urls, probe), brokenOnly);
  }

  /** The loop's broken-only test lets through everything the checker kept. */
  lemma RootSelectThenKeep(probed: seq<UrlStatus>, brokenOnly: bool, x: UrlStatus)
    requires x in probed
    ensures x in Keep(RootChecker.Select(probed, brokenOnly), brokenOnly) <==> RootChecker.Kept(x, brokenOnly)
  {
  }

  /** A URL of the round's list is added in that round exactly when its
      probed pair passes the top-level checker's test. */
  lemma RootRoundAddsProbed(reply: CdxReply, probe: Prober, brokenOnly: bool, u: Url)
    requires RootRoundUrls(reply).Urls? && u in RootRoundUrls(reply).urls
    ensures RootRound(reply, probe, brokenOnly).Continue?
    ensures RootChecker.Probed(u, probe) in Keep(RootRound(reply, probe, brokenOnly).pairs, brokenOnly)
            <==> RootChecker.Kept(RootChecker.Probed(u, probe), brokenOnly)
  {
    var urls := RootRoundUrls(reply).urls;
    var probed := RootChecker.ProbeAll(urls, probe);
    var x := RootChecker.Probed(u, probe);
    var k :| 0 <= k < |urls| && urls[k] == u;
    assert probed[k] == x;
    assert RootRound(reply, probe, brokenOnly).pairs == RootChecker.Select(probed, brokenOnly);
    RootSelectThenKeep(probed, brokenOnly, x);
  }

  /** When the call returns a set, a URL probed in a round that ran is in it
      with its probed status exactly when the broken-only test passes; in the
      default mode that includes the pairs whose request raised (`None`). */
  lemma RootProbedPairAdded(replies: nat -> CdxReply, probers: nat -> Prober, brokenOnly: bool, n: nat, j: nat, u: Url)
    requires j < Accumulate(Tabulate(RootRoundOf(replies, probers, brokenOnly), n), brokenOnly, false).rounds
    requires RootRoundUrls(replies(j)).Urls? && u in RootRoundUrls(replies(j)).urls
    ensures RootChecker.Probed(u, probers(j)) in Accumulate(Tabulate(RootRoundOf(replies, probers, brokenOnly), n), brokenOnly, false).links
            <==> (brokenOnly ==> probers(j)(u, 0) == Response(NOT_FOUND))
  {
    var round := RootRoundOf(replies, probers, brokenOnly);
    var outs := Tabulate(round, n);
    var p := Accumulate(outs, brokenOnly, false);
    var x := RootChecker.Probed(u, probers(j));
    AccumulateMembers(outs, brokenOnly, false, x);
    assert outs[j] == round(j) == RootRound(replies(j), probers(j), brokenOnly);
    RootRoundAddsProbed(replies(j), probers(j), brokenOnly, u);
    if x in p.links {
      var i :| 0 <= i < p.rounds && AddedIn(outs, i, brokenOnly, x);
      assert outs[i] == round(i) == RootRound(replies(i), probers(i), brokenOnly);
      RootRoundPairsKept(replies(i), probers(i), brokenOnly, x);
    }
    if RootChecker.Kept(x, brokenOnly) {
      assert AddedIn(outs, j, brokenOnly, x);
    }
  }

  /** The loop ends at the first round that raised or found no contentful
      URL, and later rounds never run. A round without URLs returns the pairs
      of the earlier rounds; an exception loses them all, since the call
      returns no set (where the package version keeps them). */
  lemma RootFirstStop(replies: nat -> CdxReply, probers: nat -> Prober, brokenOnly: bool, n: nat, j: nat)
    requires j < n && !RootRoundUrls(replies(j)).Urls?
    requires forall i :: 0 <= i < j ==> RootRoundUrls(replies(i)).Urls?
    ensures var p := Accumulate(Tabulate(RootRoundOf(replies, probers, brokenOnly), n), brokenOnly, false);
            p.rounds == j + 1
            && (p.state == Raised <==> RootRoundUrls(replies(j)) == Raises)
            && (p.state != Raised ==>
                  p.state == Stopped
                  && p.links == Accumulate(Tabulate(RootRoundOf(replies, probers, brokenOnly), j), brokenOnly, false).links)
  {
    var round := RootRoundOf(replies, probers, brokenOnly);
    var outs := Tabulate(round, n);
    forall i | 0 <= i < j
      ensures outs[i].Continue?
    {
      assert outs[i] == round(i) == RootRound(replies(i), probers(i), brokenOnly);
    }
    assert outs[j] == round(j) == RootRound(replies(j), probers(j), brokenOnly);
    AccumulateFirstStop(outs, j, brokenOnly, false);
    TabulatePrefix(round, j, n);
  }
}
