/** The package `waybackmachine_pages`: up to `iterations` discovery rounds,
    each fetching the archive index, keeping the contentful URLs, probing
    them and adding the `(url, status)` pairs to a set. The loop is left at
    the first round without contentful URLs and at the first exception. The
    archive and the probes of round `i` are the oracles `replies(i)` and
    `probers(i)`; the one-second pause between rounds is not modelled. */
module Pages {
  import opened Common
  import opened History
  import Checker
  import opened Rounds

  /** `filter_urls` + `tolist()` on the table of a round; looking up the
      `original` column is where a malformed table raises. Both versions of
      the loop share this step. */
  function FrameUrls(frame: Frame): (input: RoundInput)
    ensures input.Urls? ==> |input.urls| > 0 && NoDup(input.urls)
  {
    match ColumnOf(frame, ORIGINAL)
    case None => Raises
    case Some(column) =>
      var filtered := FilterUrls(column);
      if |filtered| == 0 then NoUrls
      else
        var urls := Values(filtered);
        assert forall i, j :: 0 <= i < j < |urls| ==> filtered[i] != filtered[j];
        Urls(urls)
  }

  /** `get_wayback_urls` + `filter_urls` + `tolist()`. */
  function RoundUrls(reply: CdxReply): (input: RoundInput)
    ensures input.Urls? ==> |input.urls| > 0 && NoDup(input.urls)
    ensures !HasRows(reply) ==> input == NoUrls
  {
    EmptyFrameColumn();
    FrameUrls(GetWaybackUrls(reply))
  }

  /** What a round hands to the set loop: its request or lookup raised, it
      found no contentful URL, or the checker's pairs for its URL list. */
  function Round(reply: CdxReply, probe: Prober, brokenOnly: bool): (outcome: RoundOutcome)
    ensures outcome.Continue? <==> RoundUrls(reply).Urls?
    ensures outcome.Failed? <==> RoundUrls(reply) == Raises
  {
    match RoundUrls(reply)
    case Raises => Failed
    case NoUrls => NoContent
    case Urls(urls) => Continue(Checker.Select(Checker.ProbeAll(urls, probe), brokenOnly))
  }

  /** Round `i` as a function of its index. */
  function RoundOf(replies: nat -> CdxReply, probers: nat -> Prober, brokenOnly: bool): nat -> RoundOutcome {
    (i: nat) => Round(replies(i), probers(i), brokenOnly)
  }

  /** The body of one round up to the set update: fetch the index, keep the
      contentful URLs, probe them. An exception, a round without URLs and the
      checker's pairs are the three outcomes. */
  method CheckRound(reply: CdxReply, probe: Prober, brokenOnly: bool) returns (outcome: RoundOutcome)
    ensures outcome == Round(reply, probe, brokenOnly)
  {
    var urlsDf := GetWaybackUrls(reply);
    var column := ColumnOf(urlsDf, ORIGINAL);
    if column.None? {
      return Failed;
    }
    var filtered := FilterUrls(column.value);
    if |filtered| == 0 {
      return NoContent;
    }
    var urls := Values(filtered);
    var urlsWithStatus := Checker.CheckAvailability(urls, probe, brokenOnly);
    return Continue(urlsWithStatus);
  }

  /** `waybackmachine_pages(domain, iterations, broken_links_only)`. Besides
      the set it reports how many rounds were started. */
  method WaybackmachinePages(replies: nat -> CdxReply, probers: nat -> Prober, iterations: int, brokenOnly: bool)
    returns (linksSet: set<UrlStatus>, rounds: nat)
    ensures var p := Accumulate(Tabulate(RoundOf(replies, probers, brokenOnly), Max0(iterations)), brokenOnly, true);
            linksSet == p.links && rounds == p.rounds
    ensures rounds <= Max0(iterations)
    ensures brokenOnly ==> forall x :: x in linksSet ==> x.status == Some(NOT_FOUND)
  {
    var n := Max0(iterations);
    linksSet := {};
    ghost var round := RoundOf(replies, probers, brokenOnly);
    rounds := 0;
    var i := 0;
    while i < iterations
      invariant 0 <= i <= n && rounds == i
      invariant Accumulate(Tabulate(round, i), brokenOnly, true) == Progress(linksSet, i, Running)
    {
      rounds := i + 1;
      var outcome := CheckRound(replies(i), probers(i), brokenOnly);
      assert outcome == round(i);
      match outcome
      case Failed =>
        // the exception is logged and the loop is left
        StopInRound(round, i, n, brokenOnly, true);
        break;
      case NoContent =>
        StopInRound(round, i, n, brokenOnly, true);
        break;
      case Continue(urlsWithStatus) =>
        linksSet := AddPairs(linksSet, urlsWithStatus, brokenOnly);
        ContinueRound(round, i, brokenOnly, true);
        i := i + 1;
    }
    if brokenOnly {
      BrokenOnlyAll404(Tabulate(round, n), true);
    }
  }

  /** Every pair a round hands over passed the checker's test. */
  lemma RoundPairsKept(reply: CdxReply, probe: Prober, brokenOnly: bool, x: UrlStatus)
    requires Round(reply, probe, brokenOnly).Continue?
    requires x in Round(reply, probe, brokenOnly).pairs
    ensures Checker.Kept(x, brokenOnly)
  {
    var urls := RoundUrls(reply).urls;
    assert Round(reply, probe, brokenOnly).pairs == Checker.Select(Checker.ProbeAll(urls, probe), brokenOnly);
  }

  /** A URL of the round's list is added in that round exactly when its
      probed pair passes the checker's test. */
  lemma RoundAddsProbed(reply: CdxReply, probe: Prober, brokenOnly: bool, u: Url)
    requires RoundUrls(reply).Urls? && u in RoundUrls(reply).urls
    ensures Round(reply, probe, brokenOnly).Continue?
    ensures Checker.Probed(u, probe) in Keep(Round(reply, probe, brokenOnly).pairs, brokenOnly)
            <==> Checker.Kept(Checker.Probed(u, probe), brokenOnly)
  {
    var urls := RoundUrls(reply).urls;
    var probed := Checker.ProbeAll(urls, probe);
    var x := Checker.Probed(u, probe);
    var k :| 0 <= k < |urls| && urls[k] == u;
    assert probed[k] == x;
    assert Round(reply, probe, brokenOnly).pairs == Checker.Select(probed, brokenOnly);
    SelectThenKeep(probed, brokenOnly, x);
  }

  /** The loop's broken-only test lets through everything the checker kept. */
  lemma SelectThenKeep(probed: seq<UrlStatus>, brokenOnly: bool, x: UrlStatus)
    requires x in probed
    ensures x in Keep(Checker.Select(probed, brokenOnly), brokenOnly) <==> Checker.Kept(x, brokenOnly)
  {
  }

  /** A URL probed in a round that ran ends up in the result with its probed
      status exactly when that status is present (and 404 in broken-only
      mode); `None` statuses never do. */
  lemma ProbedPairAdded(replies: nat -> CdxReply, probers: nat -> Prober, brokenOnly: bool, n: nat, j: nat, u: Url)
    requires j < Accumulate(Tabulate(RoundOf(replies, probers, brokenOnly), n), brokenOnly, true).rounds
    requires RoundUrls(replies(j)).Urls? && u in RoundUrls(replies(j)).urls
    ensures Checker.Probed(u, probers(j)) in Accumulate(Tabulate(RoundOf(replies, probers, brokenOnly), n), brokenOnly, true).links
            <==> Checker.Kept(Checker.Probed(u, probers(j)), brokenOnly)
  {
    var round := RoundOf(replies, probers, brokenOnly);
    var outs := Tabulate(round, n);
    var p := Accumulate(outs, brokenOnly, true);
    var x := Checker.Probed(u, probers(j));
    AccumulateMembers(outs, brokenOnly, true, x);
    assert outs[j] == round(j) == Round(replies(j), probers(j), brokenOnly);
    RoundAddsProbed(replies(j), probers(j), brokenOnly, u);
    if x in p.links {
      var i :| 0 <= i < p.rounds && AddedIn(outs, i, brokenOnly, x);
      assert outs[i] == round(i) == Round(replies(i), probers(i), brokenOnly);
      RoundPairsKept(replies(i), probers(i), brokenOnly, x);
    }
    if Checker.Kept(x, brokenOnly) {
      assert AddedIn(outs, j, brokenOnly, x);
    }
  }

  /** The loop ends at the first round that raised or found no contentful
      URL: that round is counted, later rounds never run, and the pairs of
      the earlier rounds are all kept. */
  lemma FirstStopKeepsEarlier(replies: nat -> CdxReply, probers: nat -> Prober, brokenOnly: bool, n: nat, j: nat)
    requires j < n && !RoundUrls(replies(j)).Urls?
    requires forall i :: 0 <= i < j ==> RoundUrls(replies(i)).Urls?
    ensures var p := Accumulate(Tabulate(RoundOf(replies, probers, brokenOnly), n), brokenOnly, true);
            p.rounds == j + 1 && p.state == Stopped
            && p.links == Accumulate(Tabulate(RoundOf(replies, probers, brokenOnly), j), brokenOnly, true).links
  {
    var round := RoundOf(replies, probers, brokenOnly);
    var outs := Tabulate(round, n);
    forall i | 0 <= i < j
      ensures outs[i].Continue?
    {
      assert outs[i] == round(i) == Round(replies(i), probers(i), brokenOnly);
    }
    assert outs[j] == round(j) == Round(replies(j), probers(j), brokenOnly);
    AccumulateFirstStop(outs, j, brokenOnly, true);
    TabulatePrefix(round, j, n);
  }
}
