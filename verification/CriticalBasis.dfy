/**
 A site's downtime on the basis of its level (nautobot_maps/availability.py): the replayed
 time at Critical without the site's maintenance windows.
 */
module CriticalBasis {
  import opened Wrappers
  import opened Levels
  import opened Intervals
  import opened Availability
  import opened LevelLog

  ghost predicate InSiteWindow(windows: seq<Window>, site: string, t: int) {
    exists w :: w in windows && w.device == "" && w.site == site && InWindow(w, t)
  }

  /** The instants of the period at which the builds saw the site at Critical outside its windows. */
  ghost function CriticalSet(obs: seq<Observation>, windows: seq<Window>, site: string, p: Period): set<int> {
    set t | p.start <= t < p.end && CriticalAt(obs, t) && !InSiteWindow(windows, site, t)
  }

  method CriticalDowntime(log: seq<Change>, row: SiteLevel, siteWindows: seq<Interval>, p: Period)
    returns (down: seq<Interval>)
    ensures Canonical(down)
    ensures Points(down) ==
            Points(CriticalIntervals(log, row, p.start, p.end)) * Span(p.start, p.end) - Points(siteWindows)
  {
    var intervals := ReadCritical(log, row, p.start, p.end);
    ClipMeaning(intervals, p.start, p.end);
    down := ComputeSubtract(Clip(intervals, p.start, p.end), siteWindows);
  }

  /**
   For any builds in time order, any windows, and a log the retention may have shortened:
   the downtime is exactly what the builds saw at Critical since the site was first seen,
   outside its windows.
   */
  lemma CriticalDowntimeIsWhatWasSeen(
      obs: seq<Observation>, k: nat, windows: seq<Window>, site: string, p: Period, down: set<int>)
    requires obs != [] && Increasing(obs) && p.start < p.end
    requires k <= |Recorded(obs).log| && forall i :: 0 <= i < k ==> Recorded(obs).log[i].at <= p.start
    requires Recorded(obs).row.Some?
    requires down == Points(CriticalIntervals(Recorded(obs).log[k..], Recorded(obs).row.value, p.start, p.end))
                     * Span(p.start, p.end) - Points(SiteWindows(windows, site, p))
    ensures down == CriticalSet(obs, windows, site, p)
  {
    forall t ensures t in down <==> t in CriticalSet(obs, windows, site, p) {
      ReadCriticalGivesTrace(obs, k, p.start, p.end, t);
      if p.start <= t < p.end { SiteWindowsMeaning(windows, site, p, t); }
    }
  }
}
