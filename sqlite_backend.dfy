/**
 * getLinkStats of the SQLite backend (lib/db-sqlite.ts). The writes and
 * getLink are the shared ones of LinkDb.
 */
module SqliteBackend {
  import opened Wrappers
  import opened Ledger

  /**
   * The link, its 100 newest request rows, and the count and revenue of its
   * rows in the trailing 24 hours. SQLite's `SUM(amount)` over no rows is
   * NULL and the query does not coalesce it, so the revenue is absent exactly
   * when the count is 0. An unknown link gives `null`.
   */
  function GetLinkStats(db: LinkDb, linkId: string, now: int): (r: Option<LinkStats>)
    reads db
    ensures r.None? <==> linkId !in db.links
    ensures r.Some? ==>
      && r.value.link == db.links[linkId]
      && IsRecentPage(r.value.recentRequests, RowsOf(db.requests, linkId), RECENT_LIMIT)
      && r.value.last24h.count == |WindowRows(db.requests, linkId, now)|
      && (r.value.last24h.revenue.None? <==> r.value.last24h.count == 0)
      && (r.value.last24h.revenue.Some? ==>
            r.value.last24h.revenue.value == Revenue(WindowRows(db.requests, linkId, now)))
  {
    match db.GetLink(linkId)
    case None => None
    case Some(link) =>
      var window := WindowRows(db.requests, linkId, now);
      var revenue := if window == [] then None else Some(Revenue(window));
      Some(LinkStats(link, RecentPage(RowsOf(db.requests, linkId)), Window(|window|, revenue)))
  }
}
