/** The archive index side: turning a CDX reply into a one-column table of
    archived URLs (`get_wayback_urls`) and keeping the contentful ones once
    each (`filter_urls`). Both the package version and the older top-level
    version of `get_wayback_urls` are here; their `filter_urls` are the same
    code and share `FilterUrls`. */
module History {
  import opened Common

  /** A JSON row of the CDX reply; `None` is a JSON `null` (pandas' NaN). */
  type Row = seq<Option<string>>

  /** One column of a DataFrame. */
  type Column = seq<Option<string>>

  /** The CDX request as seen by the caller: the final HTTP status and the
      decoded JSON rows (`None` when the body is not valid JSON), or a
      transport failure. */
  datatype CdxReply = Fetched(code: int, body: Option<seq<Row>>) | FetchFailed

  /** A DataFrame built from a list of rows: header and data rows. */
  datatype Frame = Frame(columns: Row, rows: seq<Row>)

  const ORIGINAL: string := "original"

  /** `pd.DataFrame(columns=["original"])`. */
  const EMPTY_FRAME: Frame := Frame([Some(ORIGINAL)], [])

  // ---------------------------------------------------------------------
  // get_wayback_urls

  /** The package version reaches `data[1:]` only when the request went
      through, `raise_for_status` passed (no 4xx/5xx), the body decoded and
      it has more than the header row. */
  predicate HasRows(reply: CdxReply) {
    && reply.Fetched?
    && !(400 <= reply.code < 600)
    && reply.body.Some?
    && |reply.body.value| > 1
  }

  /** Package `get_wayback_urls`: the first JSON row is the header and the
      rest are data rows; every error (transport, bad status, bad JSON, all
      `RequestException`s) and a reply of at most one row give the empty
      table with the single column `original`. */
  function GetWaybackUrls(reply: CdxReply): (f: Frame)
    ensures HasRows(reply) ==>
              |f.rows| == |reply.body.value| - 1
              && f.columns == reply.body.value[0]
              && forall i :: 0 <= i < |f.rows| ==> f.rows[i] == reply.body.value[i + 1]
    ensures !HasRows(reply) ==> f == EMPTY_FRAME
  {
    match reply
    case FetchFailed => EMPTY_FRAME
    case Fetched(code, body) =>
      if 400 <= code < 600 then EMPTY_FRAME
      else match body
        case None => EMPTY_FRAME
        case Some(data) => if |data| > 1 then Frame(data[0], data[1..]) else EMPTY_FRAME
  }

  /** Top-level `get_wayback_urls`: only status 200 is read; any other status
      gives the empty table. A transport failure or an undecodable body
      raises (`None`), since nothing there catches it. */
  function RootGetWaybackUrls(reply: CdxReply): (f: Option<Frame>)
    ensures f.None? <==> reply.FetchFailed? || (reply.code == 200 && reply.body.None?)
    ensures reply.Fetched? && reply.code != 200 ==> f == Some(EMPTY_FRAME)
    ensures reply.Fetched? && reply.code == 200 && reply.body.Some? ==>
              if |reply.body.value| > 1
              then f == Some(Frame(reply.body.value[0], reply.body.value[1..]))
              else f == Some(EMPTY_FRAME)
  {
    match reply
    case FetchFailed => None
    case Fetched(code, body) =>
      if code != 200 then Some(EMPTY_FRAME)
      else match body
        case None => None
        case Some(data) => if |data| > 1 then Some(Frame(data[0], data[1..])) else Some(EMPTY_FRAME)
  }

  /** On a decodable status-200 reply both versions build the same table. */
  lemma RootAgreesOnSuccess(reply: CdxReply)
    requires reply.Fetched? && reply.code == 200 && reply.body.Some?
    ensures RootGetWaybackUrls(reply) == Some(GetWaybackUrls(reply))
  {
  }

  // ---------------------------------------------------------------------
  // df["original"]

  function Occurrences<T(==)>(s: seq<T>, x: T): (n: nat)
    ensures n == 0 <==> x !in s
    decreases |s|
  {
    if |s| == 0 then 0
    else
      assert s == s[..|s| - 1] + [s[|s| - 1]];
      Occurrences(s[..|s| - 1], x) + (if s[|s| - 1] == x then 1 else 0)
  }

  /** pandas pads short rows to the longest row; the table can be built only
      when the longest row is exactly as wide as the header. */
  predicate BuildsTable(f: Frame) {
    |f.rows| == 0 ||
    ((forall r :: r in f.rows ==> |r| <= |f.columns|)
     && (exists r :: r in f.rows && |r| == |f.columns|))
  }

  function Cell(r: Row, j: nat): Option<string> {
    if j < |r| then r[j] else None
  }

  /** `df[name]` as a column, or `None` when that raises: a table that cannot
      be built, no column of that name (KeyError), or two columns of that
      name (a DataFrame with no `.str`). */
  function ColumnOf(f: Frame, name: string): (c: Option<Column>)
    ensures c.Some? <==> Occurrences(f.columns, Some(name)) == 1 && BuildsTable(f)
    ensures c.Some? ==>
              |c.value| == |f.rows|
              && forall i :: 0 <= i < |f.rows| ==>
                   c.value[i] == Cell(f.rows[i], FirstIndex(f.columns, Some(name)))
  {
    if Occurrences(f.columns, Some(name)) != 1 || !BuildsTable(f) then None
    else
      var j := FirstIndex(f.columns, Some(name));
      Some(MapSeq(f.rows, (r: Row) => Cell(r, j)))
  }

  /** The empty table has an `original` column with no cells. */
  lemma EmptyFrameColumn()
    ensures ColumnOf(EMPTY_FRAME, ORIGINAL) == Some([])
  {
    assert EMPTY_FRAME.columns == [] + [Some(ORIGINAL)];
  }

  // ---------------------------------------------------------------------
  // filter_urls

  predicate EndsWith(s: string, suffix: string) {
    |suffix| <= |s| && s[|s| - |suffix|..] == suffix
  }

  /** `str.endswith((".php", ".html", "/", ".pdf"))`. */
  predicate Contentful(u: Url) {
    EndsWith(u, ".php") || EndsWith(u, ".html") || EndsWith(u, "/") || EndsWith(u, ".pdf")
  }

  /** The row mask of `filter_urls`; `na=False` drops missing values. */
  predicate ContentfulCell(c: Option<string>) {
    c.Some? && Contentful(c.value)
  }

  /** Position of the first occurrence of `x` in `s`. */
  function FirstIndex<T(==)>(s: seq<T>, x: T): (k: nat)
    requires x in s
    ensures k < |s| && s[k] == x && x !in s[..k]
    decreases |s|
  {
    var n := |s| - 1;
    if x in s[..n] then
      var k := FirstIndex(s[..n], x);
      assert s[..n][..k] == s[..k];
      k
    else n
  }

  /** `drop_duplicates()`: the first occurrence of each value stays. */
  function Dedup<T(==, !new)>(s: seq<T>): (r: seq<T>)
    ensures NoDup(r)
    ensures forall x :: x in r <==> x in s
    ensures |r| <= |s|
    decreases |s|
  {
    if |s| == 0 then []
    else
      var n := |s| - 1;
      assert s == s[..n] + [s[n]];
      var d := Dedup(s[..n]);
      if s[n] in d then d else d + [s[n]]
  }

  /** The survivors of `Dedup` stand in the order of their first occurrences
      in the input; with `NoDup` and equal membership this pins the result down. */
  lemma {:induction false} DedupKeepsFirstOrder<T(!new)>(s: seq<T>)
    ensures forall i, j :: 0 <= i < j < |Dedup(s)| ==>
              FirstIndex(s, Dedup(s)[i]) < FirstIndex(s, Dedup(s)[j])
    decreases |s|
  {
    if |s| > 0 {
      var n := |s| - 1;
      var d := Dedup(s[..n]);
      DedupKeepsFirstOrder(s[..n]);
      forall i, j | 0 <= i < j < |Dedup(s)|
        ensures FirstIndex(s, Dedup(s)[i]) < FirstIndex(s, Dedup(s)[j])
      {
        assert d[i] in s[..n];
        assert FirstIndex(s, d[i]) == FirstIndex(s[..n], d[i]);
        if j < |d| {
          assert d[j] in s[..n];
          assert FirstIndex(s, d[j]) == FirstIndex(s[..n], d[j]);
        } else {
          assert Dedup(s)[j] == s[n] && s[n] !in s[..n];
        }
      }
    }
  }

  /** A list without repeats is left as it is. */
  lemma {:induction false} DedupOfNoDup<T(!new)>(s: seq<T>)
    requires NoDup(s)
    ensures Dedup(s) == s
    decreases |s|
  {
    if |s| > 0 {
      var n := |s| - 1;
      assert NoDup(s[..n]);
      DedupOfNoDup(s[..n]);
      assert s[n] !in s[..n];
      assert s == s[..n] + [s[n]];
    }
  }

  lemma {:induction false} DedupIsSubsequence<T(!new)>(s: seq<T>)
    ensures IsSubsequence(Dedup(s), s)
    decreases |s|
  {
    if |s| > 0 {
      var n := |s| - 1;
      assert s == s[..n] + [s[n]];
      DedupIsSubsequence(s[..n]);
      var d := Dedup(s[..n]);
      if s[n] in d {
        SubsequenceExtend(d, s[..n], s[n]);
      } else {
        assert (d + [s[n]])[..|d|] == d;
      }
    }
  }

  /** `filter_urls` on the `original` column: contentful present values,
      each once. */
  function FilterUrls(col: Column): (r: Column)
    ensures forall c :: c in r <==> c in col && ContentfulCell(c)
    ensures NoDup(r)
    ensures |r| <= |col|
  {
    Dedup(Filter(col, ContentfulCell))
  }

  /** Every kept value is present and ends in a contentful suffix, and every
      present contentful value of the input is kept. */
  lemma FilterUrlsSoundComplete(col: Column, u: Url)
    ensures Some(u) in FilterUrls(col) <==> Some(u) in col && Contentful(u)
    ensures None !in FilterUrls(col)
  {
  }

  /** Survivors keep their input order and are the first occurrences. */
  lemma FilterUrlsOrder(col: Column)
    ensures IsSubsequence(FilterUrls(col), col)
    ensures forall i, j :: 0 <= i < j < |FilterUrls(col)| ==>
              FirstIndex(col, FilterUrls(col)[i]) < FirstIndex(col, FilterUrls(col)[j])
  {
    var f := Filter(col, ContentfulCell);
    DedupIsSubsequence(f);
    FilterIsSubsequence(col, ContentfulCell);
    SubsequenceTransitive(Dedup(f), f, col);
    DedupKeepsFirstOrder(f);
    var r := FilterUrls(col);
    forall i, j | 0 <= i < j < |r|
      ensures FirstIndex(col, r[i]) < FirstIndex(col, r[j])
    {
      FilterPreservesFirstOrder(col, ContentfulCell, r[i], r[j]);
    }
  }

  /** Appending an element does not move an earlier first occurrence. */
  lemma FirstIndexSnoc<T>(s: seq<T>, e: T, x: T)
    requires x in s
    ensures FirstIndex(s + [e], x) == FirstIndex(s, x)
  {
    assert (s + [e])[..|s|] == s;
  }

  /** Filtering does not reorder first occurrences. */
  lemma {:induction false} FilterPreservesFirstOrder<T(!new)>(s: seq<T>, p: T -> bool, x: T, y: T)
    requires x in Filter(s, p) && y in Filter(s, p)
    requires FirstIndex(Filter(s, p), x) < FirstIndex(Filter(s, p), y)
    ensures FirstIndex(s, x) < FirstIndex(s, y)
    decreases |s|
  {
    var n := |s| - 1;
    var s' := s[..n];
    var f' := Filter(s', p);
    assert s == s' + [s[n]];
    FilterSnoc(s', s[n], p);
    if x in f' && y in f' {
      if p(s[n]) {
        FirstIndexSnoc(f', s[n], x);
        FirstIndexSnoc(f', s[n], y);
      }
      FilterPreservesFirstOrder(s', p, x, y);
      FirstIndexSnoc(s', s[n], x);
      FirstIndexSnoc(s', s[n], y);
    } else if x in f' {
      // y is the newly kept last element, first seen at position n
      assert y == s[n] && y !in s';
      FirstIndexSnoc(s', s[n], x);
    } else {
      // x is the last element of the filtered list: it cannot come first
      assert false;
    }
  }

  /** Running `filter_urls` on its own output changes nothing. */
  lemma FilterUrlsIdempotent(col: Column)
    ensures FilterUrls(FilterUrls(col)) == FilterUrls(col)
  {
    var r := FilterUrls(col);
    FilterKeepsAll(r, ContentfulCell);
    DedupOfNoDup(r);
  }

  /** `filtered_urls_df["original"].tolist()`: the kept values as strings. */
  function Values(col: Column): (us: seq<Url>)
    requires forall c :: c in col ==> c.Some?
    ensures |us| == |col| && forall i :: 0 <= i < |col| ==> col[i] == Some(us[i])
    decreases |col|
  {
    if |col| == 0 then [] else Values(col[..|col| - 1]) + [col[|col| - 1].value]
  }
}
