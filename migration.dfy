/**
 * main: spectacles, then podcasts. An error thrown out of either category
 * reaches the top-level handler and ends the process with status 1.
 */
module Migration {
  import opened Content
  import opened Network
  import Spectacles
  import Podcasts

  /** How the process ends: both categories done with their counters, or
      the top-level handler reached with what was thrown. */
  datatype Exit = Completed(spectacles: Stats, podcasts: Stats) | Fatal(failure: Failure)

  datatype Run = Run(net: Net, exit: Exit)

  function MainSpec(net: Net, dryRun: bool): Run {
    var s := Spectacles.MigrateSpectaclesSpec(net, dryRun);
    if s.result.Err? then Run(s.net, Fatal(s.result.failure))
    else
      var p := Podcasts.MigratePodcastsSpec(s.net, dryRun);
      if p.result.Err? then Run(p.net, Fatal(p.result.failure))
      else Run(p.net, Completed(s.result.value, p.result.value))
  }

  method RunMigration(net: Net, dryRun: bool) returns (r: Run)
    ensures r == MainSpec(net, dryRun)
  {
    var s := Spectacles.MigrateSpectacles(net, dryRun);
    if s.result.Err? {
      return Run(s.net, Fatal(s.result.failure));
    }
    var p := Podcasts.MigratePodcasts(s.net, dryRun);
    if p.result.Err? {
      return Run(p.net, Fatal(p.result.failure));
    }
    return Run(p.net, Completed(s.result.value, p.result.value));
  }

  /** A dry run, end to end, only reads: nothing is uploaded and no entry
      updated, whether it completes or not. */
  lemma DryRunReadOnly(net: Net)
    ensures ReadOnly(net, MainSpec(net, true).net)
  {
    var s := Spectacles.MigrateSpectaclesSpec(net, true);
    Spectacles.SpectaclesDryRunReadOnly(net);
    if s.result.Ok? {
      Podcasts.PodcastsDryRunReadOnly(s.net);
      ReadOnlyTrans(net, s.net, Podcasts.MigratePodcastsSpec(s.net, true).net);
    }
  }

  /** The run is fatal only when a listing read fails: no download, upload
      or update failure of an entry ever ends it. When the spectacle
      listings fail, podcasts are never reached: every request of the run
      is a spectacles listing request. When the podcast listings fail, every
      request after the spectacles is a podcasts listing request. */
  lemma FatalOnlyFromListings(net: Net, dryRun: bool)
    ensures var r := MainSpec(net, dryRun);
      var s := Spectacles.MigrateSpectaclesSpec(net, dryRun);
      (r.exit.Fatal? ==> ListingFailure(r.exit.failure))
      && (s.result.Err? ==>
            r.exit.Fatal?
            && forall k :: |net.sent| <= k < |r.net.sent| ==>
                 (r.net.sent[k].ListLegacy? || r.net.sent[k].ListTarget?) && r.net.sent[k].endpoint == Spectacles.Endpoint)
      && (s.result.Ok? && Podcasts.MigratePodcastsSpec(s.net, dryRun).result.Err? ==>
            r.exit.Fatal?
            && forall k :: |s.net.sent| <= k < |r.net.sent| ==>
                 (r.net.sent[k].ListLegacy? || r.net.sent[k].ListTarget?) && r.net.sent[k].endpoint == Podcasts.Endpoint)
  {
    var s := Spectacles.MigrateSpectaclesSpec(net, dryRun);
    Spectacles.ListingFailureTouchesNothing(net, dryRun);
    if s.result.Ok? {
      Podcasts.PodcastsFailure(s.net, dryRun);
    }
  }
}
