/** The older top-level availability checker: one request per URL, no scheme
    upgrade, and in the non-broken-only mode every result is kept, `None`
    statuses included. */
module RootChecker {
  import opened Common

  /** `check_url(url)`: the single request's status code is passed through
      unchanged (the 200 and 404 branches return the same code as the
      fallback branch), and a `RequestException` gives `None`. The URL is
      returned as given. */
  function CheckUrl(url: Url, reply: Attempt): (r: UrlStatus)
    ensures r.url == url
    ensures r.status.Some? <==> reply.Response?
    ensures reply.Response? ==> r.status.value == reply.status
  {
    match reply
    case RequestError => UrlStatus(url, None)
    case Response(code) =>
      if code == 200 then UrlStatus(url, Some(200))
      else if code == NOT_FOUND then UrlStatus(url, Some(NOT_FOUND))
      else UrlStatus(url, Some(code))
  }

  /** The one request the top-level checker makes for `url` is attempt 0. */
  function Probed(url: Url, probe: Prober): UrlStatus {
    CheckUrl(url, probe(url, 0))
  }

  function ProbeAll(urls: seq<Url>, probe: Prober): (r: seq<UrlStatus>)
    ensures |r| == |urls| && forall i :: 0 <= i < |urls| ==> r[i] == Probed(urls[i], probe)
  {
    MapSeq(urls, u => Probed(u, probe))
  }

  predicate Kept(r: UrlStatus, brokenOnly: bool) {
    brokenOnly ==> r.status == Some(NOT_FOUND)
  }

  function Select(results: seq<UrlStatus>, brokenOnly: bool): (s: seq<UrlStatus>)
    ensures forall r :: r in s <==> r in results && Kept(r, brokenOnly)
    ensures |s| <= |results|
  {
    Filter(results, r => Kept(r, brokenOnly))
  }

  /** Probing one more URL appends its result exactly when it is kept. */
  lemma SelectStep(urls: seq<Url>, i: nat, probe: Prober, brokenOnly: bool)
    requires i < |urls|
    ensures Select(ProbeAll(urls[..i + 1], probe), brokenOnly)
            == Select(ProbeAll(urls[..i], probe), brokenOnly)
               + (if Kept(Probed(urls[i], probe), brokenOnly) then [Probed(urls[i], probe)] else [])
  {
    assert urls[..i + 1][..i] == urls[..i];
    FilterSnoc(ProbeAll(urls[..i], probe), Probed(urls[i], probe), r => Kept(r, brokenOnly));
  }

  /** In broken-only mode exactly the 404 answers are selected; otherwise
      every result is, one per URL and in input order. */
  lemma SelectedResults(urls: seq<Url>, probe: Prober, brokenOnly: bool)
    ensures |Select(ProbeAll(urls, probe), brokenOnly)| <= |urls|
    ensures brokenOnly ==> forall r :: r in Select(ProbeAll(urls, probe), brokenOnly) ==> r.status == Some(NOT_FOUND)
    ensures brokenOnly ==> forall i :: 0 <= i < |urls| && probe(urls[i], 0) == Response(NOT_FOUND) ==>
              UrlStatus(urls[i], Some(NOT_FOUND)) in Select(ProbeAll(urls, probe), brokenOnly)
    ensures !brokenOnly ==> Select(ProbeAll(urls, probe), brokenOnly) == ProbeAll(urls, probe)
  {
    var all := ProbeAll(urls, probe);
    if brokenOnly {
      forall i | 0 <= i < |urls| && probe(urls[i], 0) == Response(NOT_FOUND)
        ensures UrlStatus(urls[i], Some(NOT_FOUND)) in Select(all, brokenOnly)
      {
        assert all[i] in all;
      }
    } else {
      FilterKeepsAll(all, r => Kept(r, brokenOnly));
    }
  }

  /** `check_availability(urls, broken_links_only)` of the top-level module. */
  method CheckAvailability(urls: seq<Url>, probe: Prober, brokenOnly: bool)
    returns (urlsWithStatus: seq<UrlStatus>)
    ensures urlsWithStatus == Select(ProbeAll(urls, probe), brokenOnly)
    ensures |urlsWithStatus| <= |urls|
    ensures brokenOnly ==> forall r :: r in urlsWithStatus ==> r.status == Some(NOT_FOUND)
    ensures brokenOnly ==> forall i :: 0 <= i < |urls| && probe(urls[i], 0) == Response(NOT_FOUND) ==>
              UrlStatus(urls[i], Some(NOT_FOUND)) in urlsWithStatus
    ensures !brokenOnly ==>
              |urlsWithStatus| == |urls|
              && forall i :: 0 <= i < |urls| ==> urlsWithStatus[i] == CheckUrl(urls[i], probe(urls[i], 0))
  {
    urlsWithStatus := [];
    var i := 0;
    while i < |urls|
      invariant 0 <= i <= |urls|
      invariant urlsWithStatus == Select(ProbeAll(urls[..i], probe), brokenOnly)
    {
      var checked := CheckUrl(urls[i], probe(urls[i], 0));
      SelectStep(urls, i, probe, brokenOnly);
      if brokenOnly {
        if checked.status == Some(NOT_FOUND) {
          urlsWithStatus := urlsWithStatus + [checked];
        }
      } else {
        urlsWithStatus := urlsWithStatus + [checked];
      }
      i := i + 1;
    }
    assert urls[..|urls|] == urls;
    SelectedResults(urls, probe, brokenOnly);
  }
}
