/** The package's command-line entry point: it discovers URLs with the round
    loop, checks them once, escalates the ones whose check failed to a second
    checker, and saves the successful records followed by the escalated ones.
    The two checkers and the discovery step are oracles here: their results
    are parameters of the model. The redirect lookup whose result the
    checkers receive, the JSON file writing and the printing are not part of
    this model. */
module Audit {
  import opened Common

  /** What the discovery step handed back: a set, listed in its iteration
      order; a value that is not a set; or an exception. */
  datatype Discovery = Discovered(listing: seq<UrlStatus>) | NotASet | DiscoveryRaised

  /** One call of a checker: its records (each a URL with a status, `None`
      when the check failed) or an exception. */
  datatype CheckReply = Checked(records: seq<UrlStatus>) | CheckRaised

  type Checker = seq<Url> -> CheckReply

  // ---------------------------------------------------------------------
  // The comprehensions of `main`

  /** The URLs of the discovered pairs, in the set's iteration order. */
  function UrlsOf(listing: seq<UrlStatus>): (urls: seq<Url>)
    ensures |urls| == |listing|
    ensures forall i :: 0 <= i < |listing| ==> urls[i] == listing[i].url
  {
    MapSeq(listing, (p: UrlStatus) => p.url)
  }

  predicate CheckFailed(r: UrlStatus) {
    r.status.None?
  }

  /** The records whose check failed, in checker order. */
  function FailedRecords(records: seq<UrlStatus>): (failed: seq<UrlStatus>)
    ensures forall r :: r in failed <==> r in records && r.status.None?
  {
    Filter(records, CheckFailed)
  }

  /** The URLs handed to the second checker. */
  function FailedUrls(records: seq<UrlStatus>): (urls: seq<Url>)
    ensures |urls| <= |records|
  {
    UrlsOf(FailedRecords(records))
  }

  predicate HasStatus(r: UrlStatus) {
    r.status.Some?
  }

  /** The records with a status, in checker order. */
  function Successful(records: seq<UrlStatus>): (ok: seq<UrlStatus>)
    ensures forall r :: r in ok <==> r in records && r.status.Some?
  {
    Filter(records, HasStatus)
  }

  /** Every record falls on exactly one side: the two sides together are as
      long as the input, the successful side holds exactly the records with
      a status, and the failed side the URLs of exactly those without. */
  lemma PartitionExact(records: seq<UrlStatus>)
    ensures |FailedUrls(records)| + |Successful(records)| == |records|
    ensures forall r :: r in Successful(records) <==> r in records && r.status.Some?
    ensures forall r :: r in records && r.status.None? ==> r.url in FailedUrls(records)
    ensures forall u :: u in FailedUrls(records) <==>
              exists r :: r in records && r.status.None? && r.url == u
  {
    FilterSplitLength(records, CheckFailed, HasStatus);
    var failed := FailedRecords(records);
    forall r | r in records && r.status.None?
      ensures r.url in FailedUrls(records)
    {
      var k :| 0 <= k < |failed| && failed[k] == r;
      assert FailedUrls(records)[k] == r.url;
    }
    forall u | u in FailedUrls(records)
      ensures exists r :: r in records && r.status.None? && r.url == u
    {
      var k :| 0 <= k < |failed| && FailedUrls(records)[k] == u;
      assert failed[k] in failed;
    }
  }

  /** Both sides keep the checker's order. */
  lemma PartitionOrder(records: seq<UrlStatus>)
    ensures IsSubsequence(Successful(records), records)
    ensures IsSubsequence(FailedRecords(records), records)
    ensures FailedUrls(records) == UrlsOf(FailedRecords(records))
  {
    FilterIsSubsequence(records, HasStatus);
    FilterIsSubsequence(records, CheckFailed);
  }

  /** When no check failed, every record is saved as it came. */
  lemma NoFailureSavesAll(records: seq<UrlStatus>)
    requires forall i :: 0 <= i < |records| ==> records[i].status.Some?
    ensures Successful(records) == records
    ensures FailedUrls(records) == []
  {
    FilterKeepsAll(records, HasStatus);
    FilterSplitLength(records, CheckFailed, HasStatus);
  }

  // ---------------------------------------------------------------------
  // main

  /** `main(domain, iterations, broken_links_only)` from the discovery result
      on. `saved` is the list handed to the JSON writer; `escalated` is the
      URL list the second checker was called with, if it was called. */
  method Run(discovery: Discovery, check: Checker, escalate: Checker)
    returns (saved: seq<UrlStatus>, escalated: Option<seq<Url>>)
    ensures !discovery.Discovered? ==> saved == [] && escalated == None
    ensures discovery.Discovered? && check(UrlsOf(discovery.listing)).CheckRaised? ==>
              saved == [] && escalated == None
    ensures discovery.Discovered? && check(UrlsOf(discovery.listing)).Checked? ==>
              var records := check(UrlsOf(discovery.listing)).records;
              (escalated.Some? <==> FailedUrls(records) != [])
              && (escalated.Some? ==> escalated.value == FailedUrls(records))
              && (escalated.None? ==> saved == Successful(records))
              && (escalated.Some? && escalate(FailedUrls(records)).Checked? ==>
                    saved == Successful(records) + escalate(FailedUrls(records)).records)
              && (escalated.Some? && escalate(FailedUrls(records)).CheckRaised? ==> saved == [])
  {
    escalated := None;
    // the `isinstance` test raises on anything but a set; every exception
    // ends in an empty save
    if !discovery.Discovered? {
      return [], None;
    }
    var urlsList := UrlsOf(discovery.listing);
    var checkedUrls := check(urlsList);
    if checkedUrls.CheckRaised? {
      return [], None;
    }
    var failedUrls := FailedUrls(checkedUrls.records);
    var successfulUrls := Successful(checkedUrls.records);
    if failedUrls != [] {
      escalated := Some(failedUrls);
      var escalatedUrls := escalate(failedUrls);
      if escalatedUrls.CheckRaised? {
        return [], escalated;
      }
      successfulUrls := successfulUrls + escalatedUrls.records;
    }
    saved := successfulUrls;
  }

  // ---------------------------------------------------------------------
  // The command line

  /** What the `__main__` block does with `sys.argv`: print the usage line
      and exit with status 1, fail on the iteration count (an uncaught
      `ValueError`, also exit status 1), or call `main`. */
  datatype Command = Usage | BadIterations | Start(domain: string, iterations: int, brokenOnly: bool)

  /** The whitespace `int()` skips around the digits of an ASCII string:
      tab, line feed, vertical tab, form feed, carriage return and space.
      The separators `\x1c` to `\x1f` are not among them. */
  predicate IsSpace(c: char) {
    9 <= c as int <= 13 || c == ' '
  }

  predicate IsDigit(c: char) {
    '0' <= c <= '9'
  }

  function TrimStart(s: string): (r: string)
    ensures |r| <= |s| && r == s[|s| - |r|..]
    ensures |r| > 0 ==> !IsSpace(r[0])
    ensures forall i :: 0 <= i < |s| - |r| ==> IsSpace(s[i])
  {
    if |s| > 0 && IsSpace(s[0]) then TrimStart(s[1..]) else s
  }

  function TrimEnd(s: string): (r: string)
    ensures |r| <= |s| && r == s[..|r|]
    ensures |r| > 0 ==> !IsSpace(r[|r| - 1])
    ensures forall i :: |r| <= i < |s| ==> IsSpace(s[i])
  {
    if |s| > 0 && IsSpace(s[|s| - 1]) then TrimEnd(s[..|s| - 1]) else s
  }

  /** Position `i` holds a digit, or an underscore with a digit on each side. */
  predicate GroupCharAt(s: string, i: nat)
    requires i < |s|
  {
    IsDigit(s[i]) || (s[i] == '_' && 0 < i < |s| - 1 && IsDigit(s[i - 1]) && IsDigit(s[i + 1]))
  }

  /** Digits with single underscores between them, as `int()` accepts them. */
  predicate DigitGroups(s: string) {
    |s| > 0 && forall i :: 0 <= i < |s| ==> GroupCharAt(s, i)
  }

  function DigitValue(c: char): (d: nat)
    requires IsDigit(c)
    ensures d < 10
  {
    c as int - '0' as int
  }

  function DigitsValue(d: string): (n: nat)
    requires forall i :: 0 <= i < |d| ==> IsDigit(d[i])
    decreases |d|
  {
    if |d| == 0 then 0
    else DigitsValue(d[..|d| - 1]) * 10 + DigitValue(d[|d| - 1])
  }

  /** The value of a digit group, underscores skipped. */
  function GroupValue(s: string): nat
    requires DigitGroups(s)
  {
    var d := Filter(s, IsDigit);
    assert forall i :: 0 <= i < |d| ==> IsDigit(d[i]) by {
      forall i | 0 <= i < |d| ensures IsDigit(d[i]) { assert d[i] in d; }
    }
    DigitsValue(d)
  }

  /** The whitespace `int()` strips from both ends. */
  function Strip(s: string): (r: string)
    ensures |r| <= |s|
    ensures |r| > 0 ==> !IsSpace(r[0]) && !IsSpace(r[|r| - 1])
    ensures forall i :: 0 <= i < |s| && !IsSpace(s[i]) ==> 0 < |r|
  {
    var t := TrimStart(s);
    var r := TrimEnd(t);
    assert |r| > 0 ==> r[0] == t[0];
    r
  }

  /** What `int()` reads once the whitespace is gone: an optional sign, then
      digit groups; anything else raises (`None`). */
  function ParseStripped(t: string): (r: Option<int>)
    ensures r.Some? ==> |t| > 0
  {
    if |t| > 0 && (t[0] == '-' || t[0] == '+') then
      if DigitGroups(t[1..]) then
        var v: int := GroupValue(t[1..]);
        Some(if t[0] == '-' then -v else v)
      else None
    else if DigitGroups(t) then Some(GroupValue(t))
    else None
  }

  /** `int(text)` in base 10. */
  function ParseInt(text: string): (r: Option<int>)
    ensures r.Some? ==> |Strip(text)| > 0
  {
    ParseStripped(Strip(text))
  }

  function DigitChar(d: nat): (c: char)
    requires d < 10
    ensures IsDigit(c) && DigitValue(c) == d
  {
    ('0' as int + d) as char
  }

  /** Decimal digits of `n`, most significant first. */
  function ShowNat(n: nat): (s: string)
    ensures |s| > 0 && forall i :: 0 <= i < |s| ==> IsDigit(s[i])
  {
    if n < 10 then [DigitChar(n)] else ShowNat(n / 10) + [DigitChar(n % 10)]
  }

  /** `str(n)`. */
  function ShowInt(n: int): (s: string)
    ensures |s| > 0 && !IsSpace(s[0]) && !IsSpace(s[|s| - 1])
  {
    if n < 0 then "-" + ShowNat(-n) else ShowNat(n)
  }

  lemma {:induction false} DigitsValueShowNat(n: nat)
    ensures DigitsValue(ShowNat(n)) == n
  {
    if n >= 10 {
      DigitsValueShowNat(n / 10);
      var s := ShowNat(n);
      assert s[..|s| - 1] == ShowNat(n / 10);
    }
  }

  lemma GroupValueShowNat(n: nat)
    ensures DigitGroups(ShowNat(n)) && GroupValue(ShowNat(n)) == n
  {
    var s := ShowNat(n);
    FilterKeepsAll(s, IsDigit);
    DigitsValueShowNat(n);
  }

  lemma StripUnpadded(s: string)
    requires |s| > 0 && !IsSpace(s[0]) && !IsSpace(s[|s| - 1])
    ensures Strip(s) == s
  {
    assert TrimStart(s) == s;
  }

  lemma ParseStrippedShowNat(n: nat)
    ensures ParseStripped(ShowNat(n)) == Some(n)
  {
    GroupValueShowNat(n);
    assert IsDigit(ShowNat(n)[0]);
  }

  lemma ParseStrippedShowNegative(n: nat)
    requires n > 0
    ensures ParseStripped("-" + ShowNat(n)) == Some(-(n as int))
  {
    var s := "-" + ShowNat(n);
    GroupValueShowNat(n);
    assert s[0] == '-' && s[1..] == ShowNat(n);
  }

  lemma ParseStrippedShowInt(n: int)
    ensures ParseStripped(ShowInt(n)) == Some(n)
  {
    if n < 0 {
      ParseStrippedShowNegative(-n);
    } else {
      ParseStrippedShowNat(n);
    }
  }

  /** Reading back what `str` prints gives the number again. */
  lemma ParseShowInt(n: int)
    ensures ParseInt(ShowInt(n)) == Some(n)
  {
    StripUnpadded(ShowInt(n));
    ParseStrippedShowInt(n);
  }

  lemma {:induction false} TrimStartPadded(pad: string, text: string)
    requires forall i :: 0 <= i < |pad| ==> IsSpace(pad[i])
    ensures TrimStart(pad + text) == TrimStart(text)
    decreases |pad|
  {
    if |pad| > 0 {
      assert (pad + text)[1..] == pad[1..] + text;
      TrimStartPadded(pad[1..], text);
    } else {
      assert pad + text == text;
    }
  }

  /** Leading whitespace does not change what `int()` reads. */
  lemma ParseIgnoresLeadingSpace(pad: string, text: string)
    requires forall i :: 0 <= i < |pad| ==> IsSpace(pad[i])
    ensures ParseInt(pad + text) == ParseInt(text)
  {
    TrimStartPadded(pad, text);
  }

  /** Text whose first character is neither whitespace, a sign nor a digit
      is not a number: `int()` raises on it. This covers the information
      separators `\x1c` to `\x1f`, which `int()` does not skip. */
  lemma NonSpaceLeadRejected(c: char, t: string)
    requires !IsSpace(c) && !IsDigit(c) && c != '+' && c != '-'
    ensures ParseInt([c] + t) == None
  {
    assert TrimStart([c] + t) == [c] + t;
    assert |Strip([c] + t)| > 0 && Strip([c] + t)[0] == c;
    assert !GroupCharAt(Strip([c] + t), 0);
  }

  function LowerChar(c: char): char {
    if 'A' <= c <= 'Z' then (c as int - 'A' as int + 'a' as int) as char else c
  }

  /** `str.lower()` on the ASCII letters. */
  function Lower(s: string): (r: string)
    ensures |r| == |s| && forall i :: 0 <= i < |s| ==> r[i] == LowerChar(s[i])
  {
    MapSeq(s, LowerChar)
  }

  /** The broken-only flag. */
  predicate IsTrueFlag(s: string) {
    Lower(s) == "true"
  }

  /** The flag is set exactly by the sixteen spellings of `true` in any mix of
      upper and lower case letters. */
  lemma TrueFlagSpellings(s: string)
    ensures IsTrueFlag(s) <==> |s| == 4 && forall i :: 0 <= i < 4 ==> s[i] == "true"[i] || s[i] == "TRUE"[i]
  {
    if |s| == 4 && forall i :: 0 <= i < 4 ==> s[i] == "true"[i] || s[i] == "TRUE"[i] {
      assert Lower(s) == "true" by {
        forall i | 0 <= i < 4 ensures Lower(s)[i] == "true"[i] {
        }
      }
    }
    if IsTrueFlag(s) {
      forall i | 0 <= i < 4 ensures s[i] == "true"[i] || s[i] == "TRUE"[i] {
        assert LowerChar(s[i]) == "true"[i];
      }
    }
  }

  /** The `__main__` block: fewer than four entries give the usage exit;
      otherwise `argv[1]` is the domain, `argv[2]` the iteration count and
      `argv[3]` the broken-only flag. */
  function ParseArgs(argv: seq<string>): (cmd: Command)
    ensures cmd == Usage <==> |argv| < 4
    ensures |argv| >= 4 ==> (cmd == BadIterations <==> ParseInt(argv[2]).None?)
    ensures cmd.Start? ==>
              cmd.domain == argv[1]
              && ParseInt(argv[2]) == Some(cmd.iterations)
              && (cmd.brokenOnly <==> IsTrueFlag(argv[3]))
  {
    if |argv| < 4 then Usage
    else match ParseInt(argv[2])
      case None => BadIterations
      case Some(iterations) => Start(argv[1], iterations, IsTrueFlag(argv[3]))
  }

  /** The process exit status the command line ends with. */
  function ExitStatus(cmd: Command): (status: int)
    ensures status == 0 <==> cmd.Start?
    ensures !cmd.Start? ==> status == 1
  {
    if cmd.Start? then 0 else 1
  }
}
