/** The package availability checker: `check_url` probes one URL with a
    bounded retry loop after upgrading its scheme, and `check_availability`
    probes a list of URLs and keeps the results that have a status (only the
    404s in broken-only mode). The thread pool is read back in submission
    order, so probing is a sequential map here. */
module Checker {
  import opened Common

  /** `check_availability` submits `check_url(url)` with its default retries. */
  const MAX_RETRIES: nat := 3

  const HTTP_PREFIX: string := "http://"
  const HTTPS_PREFIX: string := "https://"

  predicate StartsWith(s: string, prefix: string) {
    |prefix| <= |s| && s[..|prefix|] == prefix
  }

  // ---------------------------------------------------------------------
  // check_url

  /** The scheme upgrade at the top of `check_url`: `http://rest` becomes
      `https://rest`; everything else passes through. The result never
      starts with `http://`. */
  function Upgrade(url: Url): (r: Url)
    ensures !StartsWith(r, HTTP_PREFIX)
    ensures StartsWith(url, HTTP_PREFIX) ==>
              StartsWith(r, HTTPS_PREFIX) && r[|HTTPS_PREFIX|..] == url[|HTTP_PREFIX|..]
    ensures !StartsWith(url, HTTP_PREFIX) ==> r == url
  {
    if StartsWith(url, HTTP_PREFIX) then
      var r := HTTPS_PREFIX + url[|HTTP_PREFIX|..];
      assert r[..|HTTP_PREFIX|][4] == 's' != HTTP_PREFIX[4];
      r
    else url
  }

  lemma UpgradeIdempotent(url: Url)
    ensures Upgrade(Upgrade(url)) == Upgrade(url)
  {
  }

  /** The status `check_url` reports when attempts `i`, `i + 1`, ... up to
      `n - 1` are still to be made. */
  function RetryFrom(probe: Prober, u: Url, i: nat, n: nat): Option<int>
    decreases n - i
  {
    if i >= n then None
    else match probe(u, i)
      case Response(code) => Some(code)
      case RequestError => RetryFrom(probe, u, i + 1, n)
  }

  /** The status reported by `check_url` with `n` attempts on the upgraded URL `u`. */
  function RetryStatus(probe: Prober, u: Url, n: nat): Option<int> {
    RetryFrom(probe, u, 0, n)
  }

  lemma {:induction false} RetryFromNone(probe: Prober, u: Url, i: nat, n: nat)
    ensures RetryFrom(probe, u, i, n) == None <==>
              forall k :: i <= k < n ==> probe(u, k) == RequestError
    decreases n - i
  {
    if i < n {
      RetryFromNone(probe, u, i + 1, n);
    }
  }

  lemma {:induction false} RetryFromFirst(probe: Prober, u: Url, i: nat, n: nat, k: nat)
    requires i <= k < n && probe(u, k).Response?
    requires forall j :: i <= j < k ==> probe(u, j) == RequestError
    ensures RetryFrom(probe, u, i, n) == Some(probe(u, k).status)
    decreases k - i
  {
    if i < k {
      RetryFromFirst(probe, u, i + 1, n, k);
    }
  }

  /** The retry loop reports no status exactly when every attempt raised,
      and otherwise the status of the first attempt that got a response,
      whatever its code (404 and 500 included). */
  lemma RetryStatusIsFirstResponse(probe: Prober, u: Url, n: nat, k: nat)
    ensures RetryStatus(probe, u, n) == None <==> forall j :: 0 <= j < n ==> probe(u, j) == RequestError
    ensures k < n && probe(u, k).Response? && (forall j :: 0 <= j < k ==> probe(u, j) == RequestError) ==>
              RetryStatus(probe, u, n) == Some(probe(u, k).status)
  {
    RetryFromNone(probe, u, 0, n);
    if k < n && probe(u, k).Response? && (forall j :: 0 <= j < k ==> probe(u, j) == RequestError) {
      RetryFromFirst(probe, u, 0, n, k);
    }
  }

  /** How many requests `check_url` makes when attempts `i` .. `n - 1` are
      still to be made: up to the first that gets a response, or all. */
  function AttemptsFrom(probe: Prober, u: Url, i: nat, n: nat): nat
    decreases n - i
  {
    if i >= n then n
    else match probe(u, i)
      case Response(_) => i + 1
      case RequestError => AttemptsFrom(probe, u, i + 1, n)
  }

  function Attempts(probe: Prober, u: Url, n: nat): nat {
    AttemptsFrom(probe, u, 0, n)
  }

  /** The backoff multipliers `2 ** 0`, ..., `2 ** (k - 1)`. */
  function Doublings(k: nat): (r: seq<nat>)
    ensures |r| == k && forall i :: 0 <= i < k ==> r[i] == Pow2(i)
  {
    if k == 0 then [] else Doublings(k - 1) + [Pow2(k - 1)]
  }

  lemma {:induction false} AttemptsFromFacts(probe: Prober, u: Url, i: nat, n: nat)
    requires i <= n
    ensures i <= AttemptsFrom(probe, u, i, n) <= n
    ensures RetryFrom(probe, u, i, n).None? ==>
              AttemptsFrom(probe, u, i, n) == n && forall k :: i <= k < n ==> probe(u, k) == RequestError
    ensures RetryFrom(probe, u, i, n).Some? ==>
              var a := AttemptsFrom(probe, u, i, n);
              i < a && probe(u, a - 1) == Response(RetryFrom(probe, u, i, n).value)
              && forall k :: i <= k < a - 1 ==> probe(u, k) == RequestError
    decreases n - i
  {
    if i < n && probe(u, i).RequestError? {
      AttemptsFromFacts(probe, u, i + 1, n);
    }
  }

  /** `check_url` makes at most `n` requests: all `n` of them, each raising,
      when it reports no status, and otherwise the requests up to the one
      whose response code it reports, the earlier ones all raising. */
  lemma AttemptsCharacterised(probe: Prober, u: Url, n: nat)
    ensures Attempts(probe, u, n) <= n
    ensures RetryStatus(probe, u, n).None? ==>
              Attempts(probe, u, n) == n && forall k :: 0 <= k < n ==> probe(u, k) == RequestError
    ensures RetryStatus(probe, u, n).Some? ==>
              1 <= Attempts(probe, u, n)
              && probe(u, Attempts(probe, u, n) - 1) == Response(RetryStatus(probe, u, n).value)
              && forall k :: 0 <= k < Attempts(probe, u, n) - 1 ==> probe(u, k) == RequestError
  {
    AttemptsFromFacts(probe, u, 0, n);
  }

  /** With no retries allowed no request is made and the status is `None`. */
  lemma NoRetriesNoStatus(probe: Prober, u: Url)
    ensures RetryStatus(probe, u, 0) == None && Attempts(probe, u, 0) == 0
  {
  }

  /** `check_url(url, max_retries)`. Besides the `(url, status)` pair it
      reports how many requests it made and the backoff multipliers
      `2 ** retry` it slept for (one after every failed attempt, the last
      one included), in order; `backoff_factor` and the real sleep are not
      modelled. */
  method CheckUrl(url: Url, maxRetries: int, probe: Prober)
    returns (checked: UrlStatus, attempts: nat, backoffs: seq<nat>)
    ensures checked == UrlStatus(Upgrade(url), RetryStatus(probe, Upgrade(url), Max0(maxRetries)))
    ensures attempts == Attempts(probe, Upgrade(url), Max0(maxRetries))
    ensures backoffs == Doublings(|backoffs|)
    ensures attempts == |backoffs| + (if checked.status.Some? then 1 else 0)
  {
    var u := Upgrade(url);
    var n := Max0(maxRetries);
    backoffs := [];
    var retry := 0;
    while retry < maxRetries
      invariant 0 <= retry <= n
      invariant backoffs == Doublings(retry)
      invariant RetryFrom(probe, u, retry, n) == RetryStatus(probe, u, n)
      invariant AttemptsFrom(probe, u, retry, n) == Attempts(probe, u, n)
    {
      match probe(u, retry)
      case Response(code) =>
        return UrlStatus(u, Some(code)), retry + 1, backoffs;
      case RequestError =>
        backoffs := backoffs + [Pow2(retry)];
        retry := retry + 1;
    }
    return UrlStatus(u, None), retry, backoffs;
  }

  // ---------------------------------------------------------------------
  // check_availability

  /** The pair `check_url(url)` returns, with its default retries. */
  function Probed(url: Url, probe: Prober): UrlStatus {
    UrlStatus(Upgrade(url), RetryStatus(probe, Upgrade(url), MAX_RETRIES))
  }

  /** The probe results in submission order, one per input URL. */
  function ProbeAll(urls: seq<Url>, probe: Prober): (r: seq<UrlStatus>)
    ensures |r| == |urls| && forall i :: 0 <= i < |urls| ==> r[i] == Probed(urls[i], probe)
  {
    MapSeq(urls, u => Probed(u, probe))
  }

  /** Which results `check_availability` appends. */
  predicate Kept(r: UrlStatus, brokenOnly: bool) {
    r.status.Some? && (brokenOnly ==> r.status.value == NOT_FOUND)
  }

  function Select(results: seq<UrlStatus>, brokenOnly: bool): (s: seq<UrlStatus>)
    ensures forall r :: r in s <==> r in results && Kept(r, brokenOnly)
    ensures |s| <= |results|
  {
    Filter(results, r => Kept(r, brokenOnly))
  }

  /** `executor.submit(check_url, url)`: `check_url` with its default
      retries; the future's result is the pair. */
  method SubmitCheck(url: Url, probe: Prober) returns (checked: UrlStatus)
    ensures checked == Probed(url, probe)
  {
    var attempts, backoffs;
    checked, attempts, backoffs := CheckUrl(url, MAX_RETRIES, probe);
  }

  /** Probing one more URL appends its result exactly when it is kept. */
  lemma SelectStep(urls: seq<Url>, i: nat, probe: Prober, brokenOnly: bool)
    requires i < |urls|
    ensures Select(ProbeAll(urls[..i + 1], probe), brokenOnly)
            == Select(ProbeAll(urls[..i], probe), brokenOnly)
               + (if Kept(Probed(urls[i], probe), brokenOnly) then [Probed(urls[i], probe)] else [])
  {
    assert urls[..i + 1][..i] == urls[..i];
    FilterSnoc(ProbeAll(urls[..i], probe), Probed(urls[i], probe), r => Kept(r, brokenOnly));
  }

  /** The selected results carry a status, are 404s in broken-only mode,
      miss no kept result, and keep the input order. */
  lemma SelectedResults(urls: seq<Url>, probe: Prober, brokenOnly: bool)
    ensures forall r :: r in Select(ProbeAll(urls, probe), brokenOnly) ==> r.status.Some?
    ensures brokenOnly ==> forall r :: r in Select(ProbeAll(urls, probe), brokenOnly) ==> r.status == Some(NOT_FOUND)
    ensures forall i :: 0 <= i < |urls| && Kept(Probed(urls[i], probe), brokenOnly) ==>
              Probed(urls[i], probe) in Select(ProbeAll(urls, probe), brokenOnly)
    ensures IsSubsequence(Select(ProbeAll(urls, probe), brokenOnly), ProbeAll(urls, probe))
    ensures |Select(ProbeAll(urls, probe), brokenOnly)| <= |urls|
  {
    var all := ProbeAll(urls, probe);
    forall i | 0 <= i < |urls| && Kept(Probed(urls[i], probe), brokenOnly)
      ensures Probed(urls[i], probe) in Select(all, brokenOnly)
    {
      assert all[i] in all;
    }
    FilterIsSubsequence(all, r => Kept(r, brokenOnly));
  }

  /** `check_availability(urls, broken_links_only)`: the probe results in input
      order, without the `None` statuses, and only the 404s in broken-only mode. */
  method CheckAvailability(urls: seq<Url>, probe: Prober, brokenOnly: bool)
    returns (urlsWithStatus: seq<UrlStatus>)
    ensures urlsWithStatus == Select(ProbeAll(urls, probe), brokenOnly)
  {
    urlsWithStatus := [];
    var i := 0;
    while i < |urls|
      invariant 0 <= i <= |urls|
      invariant urlsWithStatus == Select(ProbeAll(urls[..i], probe), brokenOnly)
    {
      var checked := SubmitCheck(urls[i], probe);
      SelectStep(urls, i, probe, brokenOnly);
      if checked.status.Some? {
        if brokenOnly && checked.status.value == NOT_FOUND {
          urlsWithStatus := urlsWithStatus + [checked];
        } else if !brokenOnly {
          urlsWithStatus := urlsWithStatus + [checked];
        }
      }
      i := i + 1;
    }
    assert urls[..|urls|] == urls;
  }
}
