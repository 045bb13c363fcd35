/**
 * migratePodcasts: every legacy podcast is matched by normalised title with
 * a target podcast; a missing image is migrated and written at once with
 * its own update.
 */
module Podcasts {
  import opened Wrappers
  import opened Content
  import opened Network
  import opened Migrator
  import opened Lookup
  import opened Pagination
  import Text

  const Endpoint := "podcasts"

  /** The update of a podcast: `{ image: id }` and nothing else. */
  function ImagePatch(id: AssetId): (p: Patch)
    ensures Keys(p) == {"image"} && p.image == Some(id)
  {
    Patch(Some(id), None, None)
  }

  /** One matched podcast: when the legacy image is truthy and the target's
      null or undefined, migrate it, update the entry with it and count it;
      anything thrown on the way counts once in `errors`. */
  function PodcastEntry(net: Net, dryRun: bool, stats: Stats, legacy: LegacyEntry, target: TargetEntry): Tally {
    if !NeedsSingle(legacy.image, target.image) then Tally(net, stats)
    else
      var o := MigrateMediaSpec(net, dryRun, legacy.image.value);
      if o.result.Err? || o.result.value.None? then Tally(o.net, stats.(errors := stats.errors + 1))
      else
        var u := UpdateSpec(o.net, dryRun, Endpoint, target.documentId, ImagePatch(o.result.value.value));
        if u.result.Err? then Tally(u.net, stats.(errors := stats.errors + 1))
        else Tally(u.net, stats.(image := stats.image + 1))
  }

  /** The body of the loop over legacy podcasts, for a matched entry. */
  method MigratePodcastEntry(net: Net, dryRun: bool, stats: Stats, legacy: LegacyEntry, target: TargetEntry)
    returns (r: Tally)
    ensures r == PodcastEntry(net, dryRun, stats, legacy, target)
  {
    r := Tally(net, stats);
    if NeedsSingle(legacy.image, target.image) {
      var o := MigrateMediaFile(net, dryRun, legacy.image.value);
      if o.result.Err? || o.result.value.None? {
        return Tally(o.net, stats.(errors := stats.errors + 1));
      }
      var u := UpdateSpec(o.net, dryRun, Endpoint, target.documentId, ImagePatch(o.result.value.value));
      if u.result.Err? {
        return Tally(u.net, stats.(errors := stats.errors + 1));
      }
      r := Tally(u.net, stats.(image := stats.image + 1));
    }
  }

  /** One legacy podcast once looked up: unmatched, it is skipped and
      counted. */
  function PodcastMatched(tally: Tally, dryRun: bool, found: Option<TargetEntry>, legacy: LegacyEntry): Tally {
    if found.Some? then PodcastEntry(tally.net, dryRun, tally.stats, legacy, found.value)
    else Tally(tally.net, tally.stats.(skipped := tally.stats.skipped + 1))
  }

  /** One legacy podcast, looked up under its normalised title. */
  function PodcastStep(tally: Tally, dryRun: bool, byTitle: map<string, TargetEntry>, legacy: LegacyEntry): Tally {
    PodcastMatched(tally, dryRun, Find(byTitle, Text.Normalize(legacy.title)), legacy)
  }

  /** The body of the loop over legacy podcasts, once looked up. */
  method MigrateMatchedPodcast(tally: Tally, dryRun: bool, found: Option<TargetEntry>, legacy: LegacyEntry)
    returns (next: Tally)
    ensures next == PodcastMatched(tally, dryRun, found, legacy)
  {
    if found.None? {
      return Tally(tally.net, tally.stats.(skipped := tally.stats.skipped + 1));
    }
    next := MigratePodcastEntry(tally.net, dryRun, tally.stats, legacy, found.value);
  }

  /** The body of the loop over legacy podcasts. */
  method MigratePodcast(tally: Tally, dryRun: bool, byTitle: map<string, TargetEntry>, legacy: LegacyEntry)
    returns (next: Tally)
    ensures next == PodcastStep(tally, dryRun, byTitle, legacy)
  {
    var found := Find(byTitle, Text.Normalize(legacy.title));
    next := MigrateMatchedPodcast(tally, dryRun, found, legacy);
  }

  /** The loop over the legacy podcasts, in order. */
  function PodcastRun(tally: Tally, dryRun: bool, byTitle: map<string, TargetEntry>, legacy: seq<LegacyEntry>): Tally
    decreases |legacy|
  {
    if legacy == [] then tally
    else PodcastRun(PodcastStep(tally, dryRun, byTitle, legacy[0]), dryRun, byTitle, legacy[1..])
  }

  /** migratePodcasts: both listings are read (a failure throws out of the
      whole function), the lookup by normalised title is built, then every
      legacy podcast is processed. */
  function MigratePodcastsSpec(net: Net, dryRun: bool): Outcome<Stats> {
    var v3 := FetchLegacySpec(net, Endpoint);
    if v3.result.Err? then Outcome(v3.net, Err(v3.result.failure))
    else
      var v5 := PagesFrom(v3.net, Endpoint, 1, []);
      if v5.result.Err? then Outcome(v5.net, Err(v5.result.failure))
      else
        var t := PodcastRun(Tally(v5.net, NoStats), dryRun, LookupOf(v5.result.value, TitleKey), v3.result.value);
        Outcome(t.net, Ok(t.stats))
  }

  method MigratePodcasts(net: Net, dryRun: bool) returns (r: Outcome<Stats>)
    ensures r == MigratePodcastsSpec(net, dryRun)
  {
    var v3 := FetchLegacySpec(net, Endpoint);
    if v3.result.Err? {
      return Outcome(v3.net, Err(v3.result.failure));
    }
    var v5 := FetchV5AllPages(v3.net, Endpoint);
    if v5.result.Err? {
      return Outcome(v5.net, Err(v5.result.failure));
    }
    var byTitle := BuildLookup(v5.result.value, TitleKey);
    var tally := RunPodcasts(Tally(v5.net, NoStats), dryRun, byTitle, v3.result.value);
    return Outcome(tally.net, Ok(tally.stats));
  }

  /** The loop over the legacy podcasts. */
  method RunPodcasts(start: Tally, dryRun: bool, byTitle: map<string, TargetEntry>, legacy: seq<LegacyEntry>)
    returns (tally: Tally)
    ensures tally == PodcastRun(start, dryRun, byTitle, legacy)
  {
    tally := start;
    for i := 0 to |legacy|
      invariant PodcastRun(tally, dryRun, byTitle, legacy[i..]) == PodcastRun(start, dryRun, byTitle, legacy)
    {
      assert legacy[i..][1..] == legacy[i + 1..];
      tally := MigratePodcast(tally, dryRun, byTitle, legacy[i]);
    }
  }

  // ---- properties ----

  /** One matched podcast: nothing is sent unless the legacy image is truthy
      and the target's missing, and then the first request downloads the
      legacy image. No request but the last may be an update, and a dry run
      writes nothing. */
  lemma PodcastEntrySpec(net: Net, dryRun: bool, stats: Stats, legacy: LegacyEntry, target: TargetEntry)
    ensures var r := PodcastEntry(net, dryRun, stats, legacy, target);
      var d := r.net.sent[|net.sent|..];
      net.sent <= r.net.sent
      && (!NeedsSingle(legacy.image, target.image) ==> r == Tally(net, stats))
      && (NeedsSingle(legacy.image, target.image) ==> |d| > 0 && d[0] == Download(legacy.image.value.url))
      && (forall k :: 0 <= k < |d| - 1 ==> !d[k].Put?)
      && (dryRun ==> ReadOnly(net, r.net))
  {
    if NeedsSingle(legacy.image, target.image) {
      var m := legacy.image.value;
      var o := MigrateMediaSpec(net, dryRun, m);
      var r := PodcastEntry(net, dryRun, stats, legacy, target);
      assert NoUpdate(net, o.net) && (dryRun ==> ReadOnly(net, o.net))
          && o.net.sent[|net.sent|] == Download(m.url) by {
        MigrateMediaRequests(net, dryRun, m);
      }
      var d := r.net.sent[|net.sent|..];
      if o.result.Ok? && o.result.value.Some? && !dryRun {
        assert r.net.sent == o.net.sent + [Put(Endpoint, target.documentId, ImagePatch(o.result.value.value))];
        forall k | 0 <= k < |d| - 1 ensures !d[k].Put? {
          assert d[k] == o.net.sent[|net.sent| + k];
        }
      } else {
        assert r.net == o.net;
        forall k | 0 <= k < |d| ensures !d[k].Put? {
          assert d[k] == o.net.sent[|net.sent| + k];
        }
      }
    }
  }

  /** The update of an attempted podcast: it is sent exactly when this is
      not a dry run and the image was migrated to an asset, as the last
      request, to this entry, carrying that asset's id as `image` and
      nothing else. */
  lemma PodcastEntryUpdate(net: Net, dryRun: bool, stats: Stats, legacy: LegacyEntry, target: TargetEntry)
    requires NeedsSingle(legacy.image, target.image)
    ensures var o := MigrateMediaSpec(net, dryRun, legacy.image.value);
      var r := PodcastEntry(net, dryRun, stats, legacy, target);
      var sent := r.net.sent;
      |net.sent| < |sent|
      && (sent[|sent| - 1].Put? <==> !dryRun && o.result.Ok? && o.result.value.Some?)
      && (sent[|sent| - 1].Put? ==>
            sent[|sent| - 1] == Put(Endpoint, target.documentId, ImagePatch(o.result.value.value)))
  {
    var m := legacy.image.value;
    var o := MigrateMediaSpec(net, dryRun, m);
    assert NoUpdate(net, o.net) && |net.sent| < |o.net.sent| by {
      MigrateMediaRequests(net, dryRun, m);
    }
    assert !o.net.sent[|o.net.sent| - 1].Put?;
  }

  /** The counters of one matched podcast: untouched when it needs no
      migration; otherwise `image` grows by one when the image was migrated
      to an asset and the update was answered ok with JSON (always, in a dry
      run), and `errors` grows by one in every other case. */
  lemma PodcastEntryCounts(net: Net, dryRun: bool, stats: Stats, legacy: LegacyEntry, target: TargetEntry)
    ensures var r := PodcastEntry(net, dryRun, stats, legacy, target);
      r.stats == if !NeedsSingle(legacy.image, target.image) then stats
        else
          var o := MigrateMediaSpec(net, dryRun, legacy.image.value);
          var u := ReplyAt(o.net.updates, 0);
          if o.result.Ok? && o.result.value.Some? && (dryRun || (u.Answer? && u.ok && u.parsed.Some?))
          then stats.(image := stats.image + 1)
          else stats.(errors := stats.errors + 1)
  {
  }

  /** The number of legacy podcasts whose normalised title finds no target. */
  function UnmatchedTitles(byTitle: map<string, TargetEntry>, legacy: seq<LegacyEntry>): nat {
    if legacy == [] then 0
    else (if Text.Normalize(legacy[0].title) in byTitle then 0 else 1) + UnmatchedTitles(byTitle, legacy[1..])
  }

  /** One legacy podcast: `skipped` grows by one exactly when no target was
      found, and then nothing is sent and no other counter moves; every
      counter only grows, and a dry run writes nothing. */
  lemma PodcastMatchedCounters(tally: Tally, dryRun: bool, found: Option<TargetEntry>, legacy: LegacyEntry)
    ensures var next := PodcastMatched(tally, dryRun, found, legacy);
      next.stats.skipped == tally.stats.skipped + (if found.Some? then 0 else 1)
      && (found.None? ==> next.net == tally.net && next.stats == tally.stats.(skipped := tally.stats.skipped + 1))
      && Grows(tally.stats, next.stats)
      && Extends(tally.net, next.net)
      && (dryRun ==> ReadOnly(tally.net, next.net))
  {
    if found.Some? {
      PodcastEntrySpec(tally.net, dryRun, tally.stats, legacy, found.value);
      PodcastEntryCounts(tally.net, dryRun, tally.stats, legacy, found.value);
    }
  }

  /** Over a run, `skipped` counts exactly the unmatched podcasts, every
      counter only grows, and a dry run writes nothing. */
  lemma {:induction false} PodcastRunCounts(tally: Tally, dryRun: bool, byTitle: map<string, TargetEntry>, legacy: seq<LegacyEntry>)
    decreases |legacy|
    ensures var r := PodcastRun(tally, dryRun, byTitle, legacy);
      r.stats.skipped == tally.stats.skipped + UnmatchedTitles(byTitle, legacy)
      && Grows(tally.stats, r.stats)
      && Extends(tally.net, r.net)
      && (dryRun ==> ReadOnly(tally.net, r.net))
  {
    if legacy != [] {
      var found := Find(byTitle, Text.Normalize(legacy[0].title));
      var next := PodcastMatched(tally, dryRun, found, legacy[0]);
      assert PodcastRun(tally, dryRun, byTitle, legacy) == PodcastRun(next, dryRun, byTitle, legacy[1..]);
      PodcastMatchedCounters(tally, dryRun, found, legacy[0]);
      PodcastRunCounts(next, dryRun, byTitle, legacy[1..]);
      if dryRun {
        ReadOnlyTrans(tally.net, next.net, PodcastRun(next, dryRun, byTitle, legacy[1..]).net);
      }
    }
  }

  /** A dry run of migratePodcasts only reads. */
  lemma PodcastsDryRunReadOnly(net: Net)
    ensures ReadOnly(net, MigratePodcastsSpec(net, true).net)
  {
    var v3 := FetchLegacySpec(net, Endpoint);
    assert ReadOnly(net, v3.net) by {
      assert v3.net.sent[|net.sent|] == ListLegacy(Endpoint);
    }
    if v3.result.Ok? {
      var v5 := PagesFrom(v3.net, Endpoint, 1, []);
      PagesReadOnly(v3.net, Endpoint, 1, []);
      ReadOnlyTrans(net, v3.net, v5.net);
      if v5.result.Ok? {
        var byTitle := LookupOf(v5.result.value, TitleKey);
        PodcastRunCounts(Tally(v5.net, NoStats), true, byTitle, v3.result.value);
        ReadOnlyTrans(net, v5.net, PodcastRun(Tally(v5.net, NoStats), true, byTitle, v3.result.value).net);
      }
    }
  }

  /** Title matching ignores the guillemet markers, surrounding blanks and
      case: a legacy "<<Les Ombres>>" finds a target titled " les ombres". */
  lemma GuillemetTitleMatches(target: TargetEntry)
    requires target.title == Some(" les ombres")
    ensures Find(LookupOf([target], TitleKey), Text.Normalize(Some("<<Les Ombres>>"))) == Some(target)
  {
    Text.LesOmbresMatch();
    assert [target][..0] == [];
    assert TitleKey(target) == "les ombres";
  }

  /** migratePodcasts throws only when reading a listing fails, and then it
      has sent nothing but listing requests for podcasts: no media is
      touched and no entry updated. Failures of an entry never escape it. */
  lemma PodcastsFailure(net: Net, dryRun: bool)
    ensures var r := MigratePodcastsSpec(net, dryRun);
      r.result.Err? ==>
        ListingFailure(r.result.failure)
        && forall k :: |net.sent| <= k < |r.net.sent| ==>
             (r.net.sent[k].ListLegacy? || r.net.sent[k].ListTarget?) && r.net.sent[k].endpoint == Endpoint
  {
    var v3 := FetchLegacySpec(net, Endpoint);
    if v3.result.Ok? {
      var v5 := PagesFrom(v3.net, Endpoint, 1, []);
      if v5.result.Err? {
        PagesFailure(v3.net, Endpoint, 1, []);
        PagesRequestedInOrder(v3.net, Endpoint, 1, []);
        forall k | |net.sent| <= k < |v5.net.sent|
          ensures (v5.net.sent[k].ListLegacy? || v5.net.sent[k].ListTarget?) && v5.net.sent[k].endpoint == Endpoint
        {
          if k >= |v3.net.sent| {
            assert v5.net.sent[k] == v5.net.sent[|v3.net.sent|..][k - |v3.net.sent|];
          } else {
            assert v5.net.sent[k] == v3.net.sent[k];
          }
        }
      }
    }
  }
}
