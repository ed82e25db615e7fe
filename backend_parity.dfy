/** How the two backends' getLinkStats compare on the same tables. */
module BackendParity {
  import opened Wrappers
  import opened Ledger
  import SqliteBackend
  import PostgresBackend

  /**
   * On the same tables and clock both backends find the same link and the
   * same window count, and each returns a page meeting the newest-first
   * `LIMIT 100` contract over the link's rows (which rows share a timestamp at
   * the cut is left to each database); their revenue differs only when no row
   * is in the window, where SQLite reports NULL and Postgres 0.
   */
  lemma StatsAgreeExceptEmptyRevenue(db: LinkDb, linkId: string, now: int)
    ensures SqliteBackend.GetLinkStats(db, linkId, now).None? <==> PostgresBackend.GetLinkStats(db, linkId, now).None?
    ensures SqliteBackend.GetLinkStats(db, linkId, now).Some? ==>
      var s, p := SqliteBackend.GetLinkStats(db, linkId, now).value, PostgresBackend.GetLinkStats(db, linkId, now).value;
      && s.link == p.link
      && IsRecentPage(s.recentRequests, RowsOf(db.requests, linkId), RECENT_LIMIT)
      && IsRecentPage(p.recentRequests, RowsOf(db.requests, linkId), RECENT_LIMIT)
      && s.last24h.count == p.last24h.count
      && (s.last24h.count > 0 ==> s.last24h.revenue == p.last24h.revenue)
      && (s.last24h.count == 0 ==> s.last24h.revenue == None && p.last24h.revenue == Some(0.0))
  {
  }

  /** The 24-hour count of either backend never exceeds the link's lifetime request counter. */
  lemma WindowCountWithinTotal(db: LinkDb, linkId: string, now: int)
    requires db.Valid() && linkId in db.links
    ensures SqliteBackend.GetLinkStats(db, linkId, now).value.last24h.count <= db.links[linkId].total_requests
    ensures PostgresBackend.GetLinkStats(db, linkId, now).value.last24h.count <= db.links[linkId].total_requests
  {
  }
}
