/**
 * The link store and request ledger shared by the SQLite and Postgres
 * backends: the `links` and `requests` tables held in memory, the two
 * statements that change them (createLink, logRequest), the keyed lookup
 * (getLink), and the pure queries over the requests table that getLinkStats
 * is built from. The clock (`Date.now()`) is the parameter `now`.
 */
module Ledger {
  import opened Wrappers

  /** A row of the `links` table. Amounts are exact reals. */
  datatype Link = Link(
    id: string,
    original_url: string,
    price: real,
    receiver_wallet: string,
    created_at: int,
    total_requests: nat,
    total_revenue: real)

  /** A row of the `requests` table; `success` is stored as the integer 1 or 0. */
  datatype RequestLog = RequestLog(
    id: nat,
    link_id: string,
    timestamp: int,
    payer_wallet: Option<string>,
    amount: real,
    success: int)

  /** What getLinkStats returns for a known link. */
  datatype LinkStats = LinkStats(link: Link, recentRequests: seq<RequestLog>, last24h: Window)

  /** The trailing-window aggregate; `revenue` is `None` where SQL yields NULL. */
  datatype Window = Window(count: nat, revenue: Option<real>)

  /** The statement errors the two writes can raise. */
  datatype DbError = PrimaryKeyViolation | ForeignKeyViolation

  /** `LIMIT 100` of the recent-requests query. */
  const RECENT_LIMIT: nat := 100

  /** The width of the trailing window, `24 * 60 * 60 * 1000` milliseconds. */
  const DAY_MS: int := 24 * 60 * 60 * 1000

  // ---------------------------------------------------------------------
  // Queries over the requests table
  // ---------------------------------------------------------------------

  /** `WHERE link_id = ?`, keeping table order. */
  function RowsOf(rows: seq<RequestLog>, linkId: string): (r: seq<RequestLog>)
    ensures forall x :: x in r ==> x.link_id == linkId && x in rows
    ensures |r| <= |rows|
  {
    if rows == [] then []
    else
      var init, last := rows[..|rows| - 1], rows[|rows| - 1];
      assert rows == init + [last];
      RowsOf(init, linkId) + (if last.link_id == linkId then [last] else [])
  }

  /** `WHERE timestamp > ?`, keeping table order. */
  function After(rows: seq<RequestLog>, cutoff: int): (r: seq<RequestLog>)
    ensures forall x :: x in r ==> x.timestamp > cutoff && x in rows
    ensures |r| <= |rows|
  {
    if rows == [] then []
    else
      var init, last := rows[..|rows| - 1], rows[|rows| - 1];
      assert rows == init + [last];
      After(init, cutoff) + (if last.timestamp > cutoff then [last] else [])
  }

  /** `SUM(amount)` over a non-empty set of rows, and 0 over none. */
  function Revenue(rows: seq<RequestLog>): real
  {
    if rows == [] then 0.0 else Revenue(rows[..|rows| - 1]) + rows[|rows| - 1].amount
  }

  /** The rows the trailing-window aggregate ranges over: `link_id = ? AND timestamp > now - 24h`. */
  function WindowRows(rows: seq<RequestLog>, linkId: string, now: int): seq<RequestLog>
  {
    After(RowsOf(rows, linkId), now - DAY_MS)
  }

  /** RowsOf keeps every row of the link, as often as it occurs, and no other row. */
  lemma {:induction false} RowsOfSelects(rows: seq<RequestLog>, linkId: string)
    ensures forall x :: multiset(RowsOf(rows, linkId))[x] == if x.link_id == linkId then multiset(rows)[x] else 0
  {
    if rows != [] {
      var init, last := rows[..|rows| - 1], rows[|rows| - 1];
      assert rows == init + [last];
      RowsOfSelects(init, linkId);
    }
  }

  /** After keeps every row newer than the cutoff, as often as it occurs, and no other row. */
  lemma {:induction false} AfterSelects(rows: seq<RequestLog>, cutoff: int)
    ensures forall x :: multiset(After(rows, cutoff))[x] == if x.timestamp > cutoff then multiset(rows)[x] else 0
  {
    if rows != [] {
      var init, last := rows[..|rows| - 1], rows[|rows| - 1];
      assert rows == init + [last];
      AfterSelects(init, cutoff);
    }
  }

  /**
   * The window holds exactly the link's rows stamped strictly after
   * `now - 24h`, each as often as the table holds it.
   */
  lemma WindowRowsSelect(rows: seq<RequestLog>, linkId: string, now: int)
    ensures forall x ::
              multiset(WindowRows(rows, linkId, now))[x] ==
              if x.link_id == linkId && x.timestamp > now - DAY_MS then multiset(rows)[x] else 0
  {
    RowsOfSelects(rows, linkId);
    AfterSelects(RowsOf(rows, linkId), now - DAY_MS);
  }

  lemma {:induction false} RowsOfAppend(rows: seq<RequestLog>, row: RequestLog, linkId: string)
    ensures row.link_id == linkId ==> RowsOf(rows + [row], linkId) == RowsOf(rows, linkId) + [row]
    ensures row.link_id != linkId ==> RowsOf(rows + [row], linkId) == RowsOf(rows, linkId)
  {
    assert (rows + [row])[..|rows + [row]| - 1] == rows;
    assert RowsOf(rows, linkId) + [] == RowsOf(rows, linkId);
  }

  lemma {:induction false} RevenueAppend(rows: seq<RequestLog>, row: RequestLog)
    ensures Revenue(rows + [row]) == Revenue(rows) + row.amount
  {
    assert (rows + [row])[..|rows + [row]| - 1] == rows;
  }

  /** A link no row refers to owns no rows. */
  lemma {:induction false} RowsOfAbsent(rows: seq<RequestLog>, linkId: string)
    requires forall i :: 0 <= i < |rows| ==> rows[i].link_id != linkId
    ensures RowsOf(rows, linkId) == []
  {
    if rows != [] {
      RowsOfAbsent(rows[..|rows| - 1], linkId);
    }
  }

  // ---------------------------------------------------------------------
  // ORDER BY timestamp DESC LIMIT 100
  // ---------------------------------------------------------------------

  ghost predicate NewestFirst(s: seq<RequestLog>) {
    forall i, j :: 0 <= i < j < |s| ==> s[i].timestamp >= s[j].timestamp
  }

  /**
   * What `SELECT * ... ORDER BY timestamp DESC LIMIT limit` promises about its
   * result `page` drawn from `rows`: as many rows as the limit allows, each one
   * of `rows`, timestamps non-increasing, and no omitted row newer than an
   * included one. SQL leaves the order among equal timestamps open, so more
   * than one page can satisfy it.
   */
  ghost predicate IsRecentPage(page: seq<RequestLog>, rows: seq<RequestLog>, limit: nat) {
    && |page| == (if |rows| < limit then |rows| else limit)
    && multiset(page) <= multiset(rows)
    && NewestFirst(page)
    && forall x, y :: x in multiset(rows) - multiset(page) && y in page ==> x.timestamp <= y.timestamp
  }

  /** Putting a row in front of newest-first rows none of which is newer keeps them newest first. */
  lemma PrependNewest(h: RequestLog, t: seq<RequestLog>)
    requires NewestFirst(t)
    requires forall y :: y in t ==> y.timestamp <= h.timestamp
    ensures NewestFirst([h] + t)
  {
    forall i, j | 0 <= i < j < |[h] + t|
      ensures ([h] + t)[i].timestamp >= ([h] + t)[j].timestamp
    {
      assert ([h] + t)[j] == t[j - 1];
      if i > 0 {
        assert ([h] + t)[i] == t[i - 1];
      } else {
        assert t[j - 1] in t;
      }
    }
  }

  /** No row of `s + {x}` (as a multiset) is newer than `bound` when none of `s` and not `x` is. */
  lemma NoneNewer(r: seq<RequestLog>, s: seq<RequestLog>, x: RequestLog, bound: int)
    requires multiset(r) == multiset(s) + multiset{x}
    requires x.timestamp <= bound
    requires forall y :: y in s ==> y.timestamp <= bound
    ensures forall y :: y in r ==> y.timestamp <= bound
  {
    forall y | y in r ensures y.timestamp <= bound {
      assert y in multiset(r);
      assert y == x || y in multiset(s);
    }
  }

  /** Inserts `x` before the first row that is not newer than it. */
  function InsertNewestFirst(x: RequestLog, s: seq<RequestLog>): (r: seq<RequestLog>)
    requires NewestFirst(s)
    ensures NewestFirst(r)
    ensures multiset(r) == multiset(s) + multiset{x}
    ensures |r| == |s| + 1
  {
    if s == [] || s[0].timestamp <= x.timestamp then
      PrependNewest(x, s);
      [x] + s
    else
      assert s == [s[0]] + s[1..];
      var rest := InsertNewestFirst(x, s[1..]);
      NoneNewer(rest, s[1..], x, s[0].timestamp);
      PrependNewest(s[0], rest);
      [s[0]] + rest
  }

  /** Sorts rows newest first. */
  function SortNewestFirst(s: seq<RequestLog>): (r: seq<RequestLog>)
    ensures NewestFirst(r)
    ensures multiset(r) == multiset(s)
    ensures |r| == |s|
  {
    if s == [] then []
    else
      assert s == [s[0]] + s[1..];
      InsertNewestFirst(s[0], SortNewestFirst(s[1..]))
  }

  /** One result the recent-requests query may return. */
  function RecentPage(rows: seq<RequestLog>): (page: seq<RequestLog>)
    ensures IsRecentPage(page, rows, RECENT_LIMIT)
  {
    var sorted := SortNewestFirst(rows);
    var k := if |rows| < RECENT_LIMIT then |rows| else RECENT_LIMIT;
    RecentPageIsRecent(rows, sorted, k);
    sorted[..k]
  }

  lemma RecentPageIsRecent(rows: seq<RequestLog>, sorted: seq<RequestLog>, k: nat)
    requires NewestFirst(sorted) && multiset(sorted) == multiset(rows) && |sorted| == |rows|
    requires k == (if |rows| < RECENT_LIMIT then |rows| else RECENT_LIMIT)
    ensures IsRecentPage(sorted[..k], rows, RECENT_LIMIT)
  {
    var page, rest := sorted[..k], sorted[k..];
    assert sorted == page + rest;
    assert multiset(rows) - multiset(page) == multiset(rest);
    PrefixNewestFirst(sorted, k);
    OmittedNotNewer(sorted, k);
    forall x, y | x in multiset(rows) - multiset(page) && y in page
      ensures x.timestamp <= y.timestamp
    {
      assert x in rest;
    }
  }

  /** A prefix of newest-first rows is newest first. */
  lemma PrefixNewestFirst(sorted: seq<RequestLog>, k: nat)
    requires NewestFirst(sorted) && k <= |sorted|
    ensures NewestFirst(sorted[..k])
  {
    forall i, j | 0 <= i < j < k ensures sorted[..k][i].timestamp >= sorted[..k][j].timestamp {
      assert sorted[..k][i] == sorted[i] && sorted[..k][j] == sorted[j];
    }
  }

  /** In newest-first rows, nothing from position `k` on is newer than anything before it. */
  lemma OmittedNotNewer(sorted: seq<RequestLog>, k: nat)
    requires NewestFirst(sorted) && k <= |sorted|
    ensures forall x, y :: x in sorted[k..] && y in sorted[..k] ==> x.timestamp <= y.timestamp
  {
    forall x, y | x in sorted[k..] && y in sorted[..k]
      ensures x.timestamp <= y.timestamp
    {
      var j :| 0 <= j < |sorted[k..]| && sorted[k..][j] == x;
      var i :| 0 <= i < k && sorted[..k][i] == y;
      assert sorted[i] == y && sorted[k + j] == x;
    }
  }

  /** Every row of a recent page of a link's rows is a row of that link in the table. */
  lemma RecentPageRowsBelongToLink(page: seq<RequestLog>, rows: seq<RequestLog>, linkId: string)
    requires IsRecentPage(page, RowsOf(rows, linkId), RECENT_LIMIT)
    ensures forall x :: x in page ==> x.link_id == linkId && x in rows
  {
    forall x | x in page ensures x in RowsOf(rows, linkId) {
      assert multiset(page)[x] > 0;
    }
  }

  /** When a link has at most 100 rows, the page lists all of them. */
  lemma ShortHistoryFullyListed(page: seq<RequestLog>, rows: seq<RequestLog>)
    requires IsRecentPage(page, rows, RECENT_LIMIT)
    requires |rows| <= RECENT_LIMIT
    ensures multiset(page) == multiset(rows)
  {
    var missing := multiset(rows) - multiset(page);
    assert multiset(rows) == multiset(page) + missing;
    assert |missing| == 0;
  }

  // ---------------------------------------------------------------------
  // The tables
  // ---------------------------------------------------------------------

  /** The primary key of each link row is its id. */
  ghost predicate KeysMatch(links: map<string, Link>) {
    forall k :: k in links ==> links[k].id == k
  }

  /**
   * Every request row refers to an existing link (the foreign key), carries a
   * key below `next` that is larger than those of earlier rows, and stores
   * its success flag as 1 or 0.
   */
  ghost predicate RowsWellFormed(links: map<string, Link>, rows: seq<RequestLog>, next: nat) {
    && (forall i :: 0 <= i < |rows| ==>
          && rows[i].link_id in links
          && rows[i].id < next
          && (rows[i].success == 1 || rows[i].success == 0))
    && (forall i, j :: 0 <= i < j < |rows| ==> rows[i].id < rows[j].id)
  }

  /**
   * The counters are reproducible from the ledger: each link's
   * `total_requests` is the number of its request rows and `total_revenue`
   * the sum of their amounts.
   */
  ghost predicate CountersMatch(links: map<string, Link>, rows: seq<RequestLog>) {
    forall k :: k in links ==>
      && links[k].total_requests == |RowsOf(rows, k)|
      && links[k].total_revenue == Revenue(RowsOf(rows, k))
  }

  /** A new link with zero counters, whose id no row refers to, keeps the counters reproducible. */
  lemma InsertLinkKeepsCounters(links: map<string, Link>, rows: seq<RequestLog>, link: Link)
    requires CountersMatch(links, rows)
    requires forall i :: 0 <= i < |rows| ==> rows[i].link_id != link.id
    requires link.total_requests == 0 && link.total_revenue == 0.0
    ensures CountersMatch(links[link.id := link], rows)
  {
    RowsOfAbsent(rows, link.id);
  }

  /** The link row after logRequest's UPDATE: one more request, `amount` more revenue. */
  function Bumped(link: Link, amount: real): (r: Link)
    ensures r.total_requests == link.total_requests + 1
    ensures r.total_revenue == link.total_revenue + amount
    ensures r.id == link.id && r.original_url == link.original_url && r.price == link.price
    ensures r.receiver_wallet == link.receiver_wallet && r.created_at == link.created_at
  {
    link.(total_requests := link.total_requests + 1, total_revenue := link.total_revenue + amount)
  }

  /** Appending a row with the next key, for an existing link, keeps the rows well formed. */
  lemma LogRowKeepsRowsWellFormed(links: map<string, Link>, rows: seq<RequestLog>, next: nat, row: RequestLog, link: Link)
    requires RowsWellFormed(links, rows, next)
    requires row.link_id in links && row.id == next && (row.success == 1 || row.success == 0)
    ensures RowsWellFormed(links[row.link_id := link], rows + [row], next + 1)
  {
  }

  /** Appending a row and bumping its link's counters keeps the counters reproducible. */
  lemma LogRowKeepsCounters(links: map<string, Link>, rows: seq<RequestLog>, row: RequestLog)
    requires CountersMatch(links, rows)
    requires row.link_id in links
    ensures CountersMatch(links[row.link_id := Bumped(links[row.link_id], row.amount)], rows + [row])
  {
    var links' := links[row.link_id := Bumped(links[row.link_id], row.amount)];
    forall k | k in links'
      ensures links'[k].total_requests == |RowsOf(rows + [row], k)|
      ensures links'[k].total_revenue == Revenue(RowsOf(rows + [row], k))
    {
      RowsOfAppend(rows, row, k);
      if k == row.link_id {
        RevenueAppend(RowsOf(rows, k), row);
      }
    }
  }

  /** The table invariant, over the values of the two tables. */
  ghost predicate TablesValid(links: map<string, Link>, rows: seq<RequestLog>, next: nat) {
    KeysMatch(links) && RowsWellFormed(links, rows, next) && CountersMatch(links, rows)
  }

  /** logRequest's INSERT and UPDATE, on an existing link, keep the table invariant. */
  lemma LogKeepsTablesValid(links: map<string, Link>, rows: seq<RequestLog>, next: nat, row: RequestLog)
    requires TablesValid(links, rows, next)
    requires row.link_id in links && row.id == next && (row.success == 1 || row.success == 0)
    ensures TablesValid(links[row.link_id := Bumped(links[row.link_id], row.amount)], rows + [row], next + 1)
  {
    var link' := Bumped(links[row.link_id], row.amount);
    LogRowKeepsRowsWellFormed(links, rows, next, row, link');
    LogRowKeepsCounters(links, rows, row);
  }

  /**
   * The two tables of one database. `nextRequestId` is the next value the
   * AUTOINCREMENT (SQLite) or SERIAL (Postgres) key of `requests` hands out.
   */
  class LinkDb {
    var links: map<string, Link>
    var requests: seq<RequestLog>
    var nextRequestId: nat

    /** The contents of both tables and the next request key. */
    function Snapshot(): (t: (map<string, Link>, seq<RequestLog>, nat))
      reads this
    {
      (links, requests, nextRequestId)
    }

    /** The table invariant. */
    ghost predicate Valid()
      reads this
    {
      TablesValid(links, requests, nextRequestId)
    }

    /** A freshly created database: both tables empty. */
    constructor ()
      ensures Valid()
      ensures links == map[] && requests == [] && nextRequestId == 1
    {
      links := map[];
      requests := [];
      nextRequestId := 1;
    }

    /**
     * `INSERT INTO links ...` with both counters 0 and `created_at = now`.
     * A duplicate id violates the primary key: the insert throws and nothing changes.
     */
    method CreateLink(id: string, originalUrl: string, price: real, receiverWallet: string, now: int)
      returns (r: Result<Link, DbError>)
      requires Valid()
      modifies this
      ensures Valid()
      ensures requests == old(requests) && nextRequestId == old(nextRequestId)
      ensures id in old(links) ==> r == Failure(PrimaryKeyViolation) && links == old(links)
      ensures id !in old(links) ==>
        && r == Success(Link(id, originalUrl, price, receiverWallet, now, 0, 0.0))
        && links == old(links)[id := r.value]
      ensures r.Success? ==> GetLink(id) == Some(r.value)
    {
      if id in links {
        return Failure(PrimaryKeyViolation);
      }
      var link := Link(id, originalUrl, price, receiverWallet, now, 0, 0.0);
      InsertLinkKeepsCounters(links, requests, link);
      links := links[id := link];
      r := Success(link);
    }

    /** `SELECT * FROM links WHERE id = ?`: the row keyed by `id`, if any. */
    function GetLink(id: string): (r: Option<Link>)
      reads this
      ensures r.Some? <==> id in links
      ensures r.Some? ==> r.value == links[id]
      ensures Valid() && r.Some? ==> r.value.id == id
    {
      if id in links then Some(links[id]) else None
    }

    /**
     * `INSERT INTO requests ...` stamped with `now` and success stored as 1/0,
     * then `UPDATE links SET total_requests = total_requests + 1,
     * total_revenue = total_revenue + amount` on that link, whatever `success`
     * is. A request for an unknown link violates the foreign key: the insert
     * throws, the update is never reached and nothing changes.
     */
    method LogRequest(linkId: string, payerWallet: Option<string>, amount: real, success: bool, now: int)
      returns (r: Outcome<DbError>)
      requires Valid()
      modifies this
      ensures Valid()
      ensures linkId !in old(links) ==>
        && r == Fail(ForeignKeyViolation)
        && links == old(links) && requests == old(requests) && nextRequestId == old(nextRequestId)
      ensures linkId in old(links) ==>
        && r == Pass
        && requests == old(requests) + [RequestLog(old(nextRequestId), linkId, now, payerWallet, amount, if success then 1 else 0)]
        && nextRequestId == old(nextRequestId) + 1
        && links == old(links)[linkId := Bumped(old(links)[linkId], amount)]
    {
      if linkId !in links {
        return Fail(ForeignKeyViolation);
      }
      var row := RequestLog(nextRequestId, linkId, now, payerWallet, amount, if success then 1 else 0);
      LogKeepsTablesValid(links, requests, nextRequestId, row);
      links, requests, nextRequestId := links[linkId := Bumped(links[linkId], amount)], requests + [row], nextRequestId + 1;
      r := Pass;
    }
  }
}
