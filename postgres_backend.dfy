/**
 * getLinkStats of the Postgres backend (lib/db-postgres.ts). The writes and
 * getLink have the same effect on the tables as SQLite's and are the shared
 * ones of LinkDb.
 */
module PostgresBackend {
  import opened Wrappers
  import opened Ledger

  /**
   * The link, its 100 newest request rows, and the count and revenue of its
   * rows in the trailing 24 hours. `COALESCE(SUM(amount), 0)` and
   * `Number(...) || 0` make the revenue 0, never absent, when no row is in
   * the window. An unknown link gives `null`.
   */
  function GetLinkStats(db: LinkDb, linkId: string, now: int): (r: Option<LinkStats>)
    reads db
    ensures r.None? <==> linkId !in db.links
    ensures r.Some? ==>
      && r.value.link == db.links[linkId]
      && IsRecentPage(r.value.recentRequests, RowsOf(db.requests, linkId), RECENT_LIMIT)
      && r.value.last24h.count == |WindowRows(db.requests, linkId, now)|
      && r.value.last24h.revenue == Some(Revenue(WindowRows(db.requests, linkId, now)))
      && (r.value.last24h.count == 0 ==> r.value.last24h.revenue == Some(0.0))
  {
    if linkId !in db.links then None
    else
      var window := WindowRows(db.requests, linkId, now);
      Some(LinkStats(db.links[linkId], RecentPage(RowsOf(db.requests, linkId)), Window(|window|, Some(Revenue(window)))))
  }
}
