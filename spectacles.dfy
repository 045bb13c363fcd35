/**
 * migrateSpectacles: every legacy spectacle is matched by slug with a
 * target spectacle; its image, gallery and `dossier_de_diffusion` are
 * migrated where the target lacks them, and the target entry is updated
 * once with the fields that were set.
 */
module Spectacles {
  import opened Wrappers
  import opened Content
  import opened Network
  import opened Migrator
  import opened Lookup
  import opened Pagination

  const Endpoint := "spectacles"

  /** One entry's `try` block in progress: the network, the counters, the
      `updateData` assembled so far and the error thrown, if any. */
  datatype Try = Try(net: Net, stats: Stats, patch: Patch, thrown: Option<Failure>)

  /** The gallery loop in progress: the network, the counters and
      `uploadedIds`. */
  datatype Progress = Progress(net: Net, stats: Stats, ids: seq<AssetId>)

  /** Step 1, the image: migrated when the legacy one is truthy and the target
      one null or undefined. A failure, or an upload response without an
      asset, throws out of the entry. */
  function ImageStage(t: Try, dryRun: bool, legacy: LegacyEntry, target: TargetEntry): Try {
    if t.thrown.Some? || !NeedsSingle(legacy.image, target.image) then t
    else
      var o := MigrateMediaSpec(t.net, dryRun, legacy.image.value);
      if o.result.Err? then t.(net := o.net, thrown := Some(o.result.failure))
      else if o.result.value.None? then t.(net := o.net, thrown := Some(NoUploadedAsset))
      else t.(net := o.net, patch := t.patch.(image := o.result.value),
              stats := t.stats.(image := t.stats.image + 1))
  }

  /** One item of the gallery loop: a success appends its id and counts in
      `gallery`, a failure counts in `errors`. */
  function GalleryStep(p: Progress, dryRun: bool, item: Media): Progress {
    var o := MigrateMediaSpec(p.net, dryRun, item);
    if o.result.Ok? && o.result.value.Some? then
      Progress(o.net, p.stats.(gallery := p.stats.gallery + 1), p.ids + [o.result.value.value])
    else
      Progress(o.net, p.stats.(errors := p.stats.errors + 1), p.ids)
  }

  /** The gallery loop over `missing`: each item is migrated on its own and
      the loop goes on whatever the outcome. */
  function GalleryLoop(p: Progress, dryRun: bool, items: seq<Media>): (r: Progress)
    decreases |items|
  {
    if items == [] then p else GalleryLoop(GalleryStep(p, dryRun, items[0]), dryRun, items[1..])
  }

  method MigrateGallery(net: Net, dryRun: bool, stats: Stats, missing: seq<Media>) returns (p: Progress)
    ensures p == GalleryLoop(Progress(net, stats, []), dryRun, missing)
  {
    p := Progress(net, stats, []);
    for k := 0 to |missing|
      invariant GalleryLoop(p, dryRun, missing[k..]) == GalleryLoop(Progress(net, stats, []), dryRun, missing)
    {
      assert missing[k..][1..] == missing[k + 1..];
      var o := MigrateMediaFile(p.net, dryRun, missing[k]);
      if o.result.Ok? && o.result.value.Some? {
        p := Progress(o.net, p.stats.(gallery := p.stats.gallery + 1), p.ids + [o.result.value.value]);
      } else {
        p := Progress(o.net, p.stats.(errors := p.stats.errors + 1), p.ids);
      }
    }
  }

  /** The new gallery: the existing target ids, then the uploaded ones. */
  function NewGallery(target: TargetEntry, uploaded: seq<AssetId>): seq<AssetId> {
    IdsOf(ArrayOrEmpty(target.gallery)) + uploaded
  }

  /** Step 2, the gallery: the candidates are migrated one by one, and the
      gallery field is set only when at least one upload succeeded. */
  function GalleryStage(t: Try, dryRun: bool, legacy: LegacyEntry, target: TargetEntry): Try {
    if t.thrown.Some? then t
    else
      var missing := GalleryCandidates(legacy, target);
      if missing == [] then t
      else
        var g := GalleryLoop(Progress(t.net, t.stats, []), dryRun, missing);
        t.(net := g.net, stats := g.stats,
           patch := if g.ids == [] then t.patch else t.patch.(gallery := Some(NewGallery(target, g.ids))))
  }

  /** Step 3, the document: as the image, after the legacy `pdf` array is
      reduced to its first element. */
  function PdfStage(t: Try, dryRun: bool, legacy: LegacyEntry, target: TargetEntry): Try {
    var pdf := LegacyPdf(legacy.pdf);
    if t.thrown.Some? || !NeedsSingle(pdf, target.dossier) then t
    else
      var o := MigrateMediaSpec(t.net, dryRun, pdf.value);
      if o.result.Err? then t.(net := o.net, thrown := Some(o.result.failure))
      else if o.result.value.None? then t.(net := o.net, thrown := Some(NoUploadedAsset))
      else t.(net := o.net, patch := t.patch.(dossier := o.result.value),
              stats := t.stats.(pdf := t.stats.pdf + 1))
  }

  /** The three steps of one matched entry, from an empty `updateData`. */
  function Stages(net: Net, dryRun: bool, stats: Stats, legacy: LegacyEntry, target: TargetEntry): Try {
    var t0 := Try(net, stats, EmptyPatch, None);
    PdfStage(GalleryStage(ImageStage(t0, dryRun, legacy, target), dryRun, legacy, target), dryRun, legacy, target)
  }

  /** One matched entry: the steps, then a single update when `updateData`
      has a key. Anything thrown counts once in `errors`. */
  function SpectacleEntry(net: Net, dryRun: bool, stats: Stats, legacy: LegacyEntry, target: TargetEntry): Tally {
    var t := Stages(net, dryRun, stats, legacy, target);
    if t.thrown.Some? then Tally(t.net, t.stats.(errors := t.stats.errors + 1))
    else if Keys(t.patch) == {} then Tally(t.net, t.stats)
    else
      var u := UpdateSpec(t.net, dryRun, Endpoint, target.documentId, t.patch);
      if u.result.Err? then Tally(u.net, t.stats.(errors := t.stats.errors + 1)) else Tally(u.net, t.stats)
  }

  /** Step 1 of the loop body; a thrown error skips the remaining steps. */
  method MigrateImage(t: Try, dryRun: bool, legacy: LegacyEntry, target: TargetEntry) returns (r: Try)
    ensures r == ImageStage(t, dryRun, legacy, target)
  {
    r := t;
    if t.thrown.None? && NeedsSingle(legacy.image, target.image) {
      var o := MigrateMediaFile(t.net, dryRun, legacy.image.value);
      if o.result.Err? {
        r := t.(net := o.net, thrown := Some(o.result.failure));
      } else if o.result.value.None? {
        r := t.(net := o.net, thrown := Some(NoUploadedAsset));
      } else {
        r := t.(net := o.net, patch := t.patch.(image := o.result.value),
                stats := t.stats.(image := t.stats.image + 1));
      }
    }
  }

  /** Step 2 of the loop body. */
  method MigrateGalleryField(t: Try, dryRun: bool, legacy: LegacyEntry, target: TargetEntry) returns (r: Try)
    ensures r == GalleryStage(t, dryRun, legacy, target)
  {
    r := t;
    if t.thrown.None? {
      var missing := GalleryCandidates(legacy, target);
      if missing != [] {
        var g := MigrateGallery(t.net, dryRun, t.stats, missing);
        r := t.(net := g.net, stats := g.stats);
        if g.ids != [] {
          r := r.(patch := t.patch.(gallery := Some(NewGallery(target, g.ids))));
        }
      }
    }
  }

  /** Step 3 of the loop body. */
  method MigratePdf(t: Try, dryRun: bool, legacy: LegacyEntry, target: TargetEntry) returns (r: Try)
    ensures r == PdfStage(t, dryRun, legacy, target)
  {
    r := t;
    var pdf := LegacyPdf(legacy.pdf);
    if t.thrown.None? && NeedsSingle(pdf, target.dossier) {
      var o := MigrateMediaFile(t.net, dryRun, pdf.value);
      if o.result.Err? {
        r := t.(net := o.net, thrown := Some(o.result.failure));
      } else if o.result.value.None? {
        r := t.(net := o.net, thrown := Some(NoUploadedAsset));
      } else {
        r := t.(net := o.net, patch := t.patch.(dossier := o.result.value),
                stats := t.stats.(pdf := t.stats.pdf + 1));
      }
    }
  }

  /** The body of the loop over legacy spectacles, for a matched entry: the
      `try` block and its `catch`. */
  method MigrateSpectacleEntry(net: Net, dryRun: bool, stats: Stats, legacy: LegacyEntry, target: TargetEntry)
    returns (r: Tally)
    ensures r == SpectacleEntry(net, dryRun, stats, legacy, target)
  {
    var t := Try(net, stats, EmptyPatch, None);
    t := MigrateImage(t, dryRun, legacy, target);
    t := MigrateGalleryField(t, dryRun, legacy, target);
    t := MigratePdf(t, dryRun, legacy, target);
    if t.thrown.Some? {
      return Tally(t.net, t.stats.(errors := t.stats.errors + 1));
    }
    r := Tally(t.net, t.stats);
    if Keys(t.patch) != {} {
      var u := UpdateSpec(t.net, dryRun, Endpoint, target.documentId, t.patch);
      r := Tally(u.net, if u.result.Err? then t.stats.(errors := t.stats.errors + 1) else t.stats);
    }
  }

  /** One legacy spectacle: unmatched, it is skipped and counted. */
  function SpectacleStep(tally: Tally, dryRun: bool, bySlug: map<string, TargetEntry>, legacy: LegacyEntry): Tally {
    if legacy.slug in bySlug then SpectacleEntry(tally.net, dryRun, tally.stats, legacy, bySlug[legacy.slug])
    else Tally(tally.net, tally.stats.(skipped := tally.stats.skipped + 1))
  }

  /** The loop over the legacy spectacles, in order. */
  function SpectacleRun(tally: Tally, dryRun: bool, bySlug: map<string, TargetEntry>, legacy: seq<LegacyEntry>): Tally
    decreases |legacy|
  {
    if legacy == [] then tally
    else SpectacleRun(SpectacleStep(tally, dryRun, bySlug, legacy[0]), dryRun, bySlug, legacy[1..])
  }

  /** migrateSpectacles: both listings are read (a failure throws out of the
      whole function), the lookup is built, then every legacy entry is
      processed. */
  function MigrateSpectaclesSpec(net: Net, dryRun: bool): Outcome<Stats> {
    var v3 := FetchLegacySpec(net, Endpoint);
    if v3.result.Err? then Outcome(v3.net, Err(v3.result.failure))
    else
      var v5 := PagesFrom(v3.net, Endpoint, 1, []);
      if v5.result.Err? then Outcome(v5.net, Err(v5.result.failure))
      else
        var t := SpectacleRun(Tally(v5.net, NoStats), dryRun, LookupOf(v5.result.value, SlugKey), v3.result.value);
        Outcome(t.net, Ok(t.stats))
  }

  method MigrateSpectacles(net: Net, dryRun: bool) returns (r: Outcome<Stats>)
    ensures r == MigrateSpectaclesSpec(net, dryRun)
  {
    var v3 := FetchLegacySpec(net, Endpoint);
    if v3.result.Err? {
      return Outcome(v3.net, Err(v3.result.failure));
    }
    var v5 := FetchV5AllPages(v3.net, Endpoint);
    if v5.result.Err? {
      return Outcome(v5.net, Err(v5.result.failure));
    }
    var bySlug := BuildLookup(v5.result.value, SlugKey);
    var legacy := v3.result.value;
    var tally := Tally(v5.net, NoStats);
    for i := 0 to |legacy|
      invariant SpectacleRun(tally, dryRun, bySlug, legacy[i..]) == SpectacleRun(Tally(v5.net, NoStats), dryRun, bySlug, legacy)
    {
      assert legacy[i..][1..] == legacy[i + 1..];
      var v := legacy[i];
      if !(v.slug in bySlug) {
        tally := Tally(tally.net, tally.stats.(skipped := tally.stats.skipped + 1));
        continue;
      }
      tally := MigrateSpectacleEntry(tally.net, dryRun, tally.stats, v, bySlug[v.slug]);
    }
    return Outcome(tally.net, Ok(tally.stats));
  }

  // ---- properties ----

  /** The URLs of the items, in order. */
  function Urls(items: seq<Media>): seq<string> {
    if items == [] then [] else [items[0].url] + Urls(items[1..])
  }

  lemma GalleryStepSpec(p: Progress, dryRun: bool, item: Media)
    ensures var n := GalleryStep(p, dryRun, item);
      p.ids <= n.ids && |n.ids| <= |p.ids| + 1
      && n.stats == (if |n.ids| > |p.ids| then p.stats.(gallery := p.stats.gallery + 1)
                     else p.stats.(errors := p.stats.errors + 1))
      && (dryRun && |n.ids| > |p.ids| ==> n.ids[|p.ids|] == DryRunId)
      && Downloads(n.net.sent[|p.net.sent|..]) == [item.url]
      && NoUpdate(p.net, n.net) && (dryRun ==> ReadOnly(p.net, n.net))
  {
    MigrateMediaRequests(p.net, dryRun, item);
    MigrateMediaDownloads(p.net, dryRun, item);
  }

  /** One gallery item ends at its media migration's network, and appends
      the migration's asset id exactly when the migration returned one. */
  lemma GalleryStepOutcome(p: Progress, dryRun: bool, item: Media)
    ensures var n := GalleryStep(p, dryRun, item);
      var o := MigrateMediaSpec(p.net, dryRun, item);
      n.net == o.net
      && (o.result.Ok? && o.result.value.Some? ==> n.ids == p.ids + [o.result.value.value])
      && (!(o.result.Ok? && o.result.value.Some?) ==> n.ids == p.ids)
  {
  }

  /** From upload replies `q` an operation left `rest`, a suffix; outside a
      dry run it turned the asset ids `before` into `after` by appending
      exactly the assets handed out by the replies it took, in order. */
  predicate TookAssets(q: seq<Reply<seq<AssetId>>>, rest: seq<Reply<seq<AssetId>>>,
                       before: seq<AssetId>, after: seq<AssetId>, dryRun: bool) {
    var c := |q| - |rest|;
    0 <= c <= |q| && rest == q[c..]
    && (!dryRun ==> after == before + UploadedAssets(q[..c]))
  }

  /** Outside a dry run, the id one gallery item appends is the asset handed
      out by the upload replies it takes, if any. */
  lemma GalleryStepAssets(p: Progress, dryRun: bool, item: Media)
    ensures var n := GalleryStep(p, dryRun, item);
      TookAssets(p.net.uploads, n.net.uploads, p.ids, n.ids, dryRun)
  {
    MigrateMediaAssets(p.net, dryRun, item);
    GalleryStepOutcome(p, dryRun, item);
    StepTook(p.net.uploads, MigrateMediaSpec(p.net, dryRun, item), p.ids, GalleryStep(p, dryRun, item), dryRun);
  }

  /** A gallery item that ended at its migration's network and appended the
      migration's asset id, if any, appended exactly the assets handed out. */
  lemma StepTook(q: seq<Reply<seq<AssetId>>>, o: Outcome<Option<AssetId>>, ids: seq<AssetId>, n: Progress, dryRun: bool)
    requires MediaTook(q, o, dryRun)
    requires n.net == o.net
    requires o.result.Ok? && o.result.value.Some? ==> n.ids == ids + [o.result.value.value]
    requires !(o.result.Ok? && o.result.value.Some?) ==> n.ids == ids
    ensures TookAssets(q, n.net.uploads, ids, n.ids, dryRun)
  {
  }

  /** Outside a dry run, the gallery loop appends exactly the assets handed
      out by the upload replies it takes, in order. */
  lemma {:induction false} GalleryLoopAssets(p: Progress, dryRun: bool, items: seq<Media>)
    decreases |items|
    ensures var r := GalleryLoop(p, dryRun, items);
      TookAssets(p.net.uploads, r.net.uploads, p.ids, r.ids, dryRun)
  {
    var q := p.net.uploads;
    if items == [] {
      assert q[0..] == q && q[..0] == [];
    } else {
      var n := GalleryStep(p, dryRun, items[0]);
      var r := GalleryLoop(n, dryRun, items[1..]);
      assert r == GalleryLoop(p, dryRun, items);
      GalleryStepAssets(p, dryRun, items[0]);
      GalleryLoopAssets(n, dryRun, items[1..]);
      TookAssetsTrans(q, n.net.uploads, r.net.uploads, p.ids, n.ids, r.ids, dryRun);
    }
  }

  /** Chaining the upload replies of two operations in a row. */
  lemma TookAssetsTrans(q: seq<Reply<seq<AssetId>>>, q1: seq<Reply<seq<AssetId>>>, q2: seq<Reply<seq<AssetId>>>,
                        a0: seq<AssetId>, a1: seq<AssetId>, a2: seq<AssetId>, dryRun: bool)
    requires TookAssets(q, q1, a0, a1, dryRun) && TookAssets(q1, q2, a1, a2, dryRun)
    ensures TookAssets(q, q2, a0, a2, dryRun)
  {
    var k := |q| - |q1|;
    var c2 := |q1| - |q2|;
    UploadedAssetsJoin(q, k, c2);
    if !dryRun {
      ConcatAssoc(a0, UploadedAssets(q[..k]), UploadedAssets(q[k..][..c2]));
    }
  }

  /** The gallery loop attempts every item once, in order (one download
      each). Each item either appends its asset id and counts in `gallery`,
      or counts in `errors`; the other counters stay. It never updates an
      entry; a dry run uploads nothing and appends only dry-run ids. */
  lemma {:induction false} GalleryLoopSpec(p: Progress, dryRun: bool, items: seq<Media>)
    decreases |items|
    ensures var r := GalleryLoop(p, dryRun, items);
      p.ids <= r.ids && |r.ids| <= |p.ids| + |items|
      && r.stats.gallery + |p.ids| == p.stats.gallery + |r.ids|
      && r.stats.errors + |r.ids| == p.stats.errors + |p.ids| + |items|
      && r.stats.image == p.stats.image && r.stats.pdf == p.stats.pdf && r.stats.skipped == p.stats.skipped
      && NoUpdate(p.net, r.net)
      && (dryRun ==> ReadOnly(p.net, r.net) && forall j :: |p.ids| <= j < |r.ids| ==> r.ids[j] == DryRunId)
  {
    var r := GalleryLoop(p, dryRun, items);
    if items == [] {
      assert r.net.sent[|p.net.sent|..] == [];
    } else {
      var n := GalleryStep(p, dryRun, items[0]);
      assert r == GalleryLoop(n, dryRun, items[1..]);
      GalleryStepSpec(p, dryRun, items[0]);
      GalleryLoopSpec(n, dryRun, items[1..]);
      NoUpdateTrans(p.net, n.net, r.net);
      if dryRun {
        ReadOnlyTrans(p.net, n.net, r.net);
        forall j | |p.ids| <= j < |r.ids| ensures r.ids[j] == DryRunId {
          if j < |n.ids| {
            assert r.ids[j] == n.ids[j];
          }
        }
      }
    }
  }

  /** The gallery loop attempts every item once, in order: it downloads
      exactly their URLs. */
  lemma {:induction false} GalleryLoopDownloads(p: Progress, dryRun: bool, items: seq<Media>)
    decreases |items|
    ensures var r := GalleryLoop(p, dryRun, items);
      p.net.sent <= r.net.sent && Downloads(r.net.sent[|p.net.sent|..]) == Urls(items)
  {
    var r := GalleryLoop(p, dryRun, items);
    if items == [] {
      assert r.net.sent[|p.net.sent|..] == [];
    } else {
      var n := GalleryStep(p, dryRun, items[0]);
      assert r == GalleryLoop(n, dryRun, items[1..]);
      assert p.net.sent <= n.net.sent && Downloads(n.net.sent[|p.net.sent|..]) == [items[0].url] by {
        GalleryStepSpec(p, dryRun, items[0]);
      }
      GalleryLoopDownloads(n, dryRun, items[1..]);
      SentBetween(p.net.sent, n.net.sent, r.net.sent);
      DownloadsAppend(n.net.sent[|p.net.sent|..], r.net.sent[|n.net.sent|..]);
    }
  }

  /** Step 1 writes only the image, only when the target has none, and
      counts it; it throws only when it ran and nothing was thrown before. */
  lemma ImageStageFacts(t: Try, dryRun: bool, legacy: LegacyEntry, target: TargetEntry)
    requires t.patch.image.None?
    ensures var r := ImageStage(t, dryRun, legacy, target);
      r.patch.gallery == t.patch.gallery && r.patch.dossier == t.patch.dossier
      && (r.patch.image.Some? ==> NeedsSingle(legacy.image, target.image))
      && (r.thrown.None? && NeedsSingle(legacy.image, target.image) ==> r.patch.image.Some?)
      && (r.thrown.None? ==> t.thrown.None?)
      && r.stats == (if r.patch.image.Some? then t.stats.(image := t.stats.image + 1) else t.stats)
      && NoUpdate(t.net, r.net) && (dryRun ==> ReadOnly(t.net, r.net))
  {
    ImageStageNet(t, dryRun, legacy, target);
  }

  /** Step 1 never updates an entry; in a dry run it uploads nothing. */
  lemma ImageStageNet(t: Try, dryRun: bool, legacy: LegacyEntry, target: TargetEntry)
    ensures var r := ImageStage(t, dryRun, legacy, target);
      NoUpdate(t.net, r.net) && (dryRun ==> ReadOnly(t.net, r.net))
  {
    if t.thrown.None? && NeedsSingle(legacy.image, target.image) {
      MigrateMediaRequests(t.net, dryRun, legacy.image.value);
    }
  }

  /** Step 2 writes only the gallery, only from missing items, as the
      existing ids followed by the new ones, and counts each new id. */
  lemma GalleryStageFacts(t: Try, dryRun: bool, legacy: LegacyEntry, target: TargetEntry)
    requires t.patch.gallery.None?
    ensures var r := GalleryStage(t, dryRun, legacy, target);
      var existing := IdsOf(ArrayOrEmpty(target.gallery));
      r.patch.image == t.patch.image && r.patch.dossier == t.patch.dossier && r.thrown == t.thrown
      && (r.patch.gallery.Some? ==> GalleryCandidates(legacy, target) != [] && existing < r.patch.gallery.value)
      && r.stats.gallery == t.stats.gallery + (if r.patch.gallery.Some? then |r.patch.gallery.value| - |existing| else 0)
      && Grows(t.stats, r.stats)
      && r.stats.image == t.stats.image && r.stats.pdf == t.stats.pdf && r.stats.skipped == t.stats.skipped
      && NoUpdate(t.net, r.net) && (dryRun ==> ReadOnly(t.net, r.net))
  {
    var missing := GalleryCandidates(legacy, target);
    if t.thrown.None? && missing != [] {
      GalleryLoopSpec(Progress(t.net, t.stats, []), dryRun, missing);
      assert Progress(t.net, t.stats, []).ids == [];
    }
  }

  /** Step 3 writes only the document, only when the target has none, and
      counts it. */
  lemma PdfStageFacts(t: Try, dryRun: bool, legacy: LegacyEntry, target: TargetEntry)
    requires t.patch.dossier.None?
    ensures var r := PdfStage(t, dryRun, legacy, target);
      var pdf := LegacyPdf(legacy.pdf);
      r.patch.gallery == t.patch.gallery && r.patch.image == t.patch.image
      && (r.patch.dossier.Some? ==> NeedsSingle(pdf, target.dossier))
      && (r.thrown.None? && NeedsSingle(pdf, target.dossier) ==> r.patch.dossier.Some?)
      && (r.thrown.None? ==> t.thrown.None?)
      && r.stats == (if r.patch.dossier.Some? then t.stats.(pdf := t.stats.pdf + 1) else t.stats)
  {
  }

  /** Step 3 never updates an entry; in a dry run it uploads nothing. */
  lemma PdfStageNet(t: Try, dryRun: bool, legacy: LegacyEntry, target: TargetEntry)
    ensures var r := PdfStage(t, dryRun, legacy, target);
      NoUpdate(t.net, r.net) && (dryRun ==> ReadOnly(t.net, r.net))
  {
    var pdf := LegacyPdf(legacy.pdf);
    if t.thrown.None? && NeedsSingle(pdf, target.dossier) {
      MigrateMediaRequests(t.net, dryRun, pdf.value);
    }
  }

  /** Each step writes only its own field, and only step 1 and step 3 throw,
      never once something was thrown before. */
  lemma ImageStageKeeps(t: Try, dryRun: bool, legacy: LegacyEntry, target: TargetEntry)
    ensures var r := ImageStage(t, dryRun, legacy, target);
      r.patch.gallery == t.patch.gallery && r.patch.dossier == t.patch.dossier
      && (r.thrown.None? ==> t.thrown.None?) && (t.thrown.Some? ==> r.thrown == t.thrown)
  {
  }

  lemma GalleryStageKeeps(t: Try, dryRun: bool, legacy: LegacyEntry, target: TargetEntry)
    ensures var r := GalleryStage(t, dryRun, legacy, target);
      r.patch.image == t.patch.image && r.patch.dossier == t.patch.dossier && r.thrown == t.thrown
  {
  }

  lemma PdfStageKeeps(t: Try, dryRun: bool, legacy: LegacyEntry, target: TargetEntry)
    ensures var r := PdfStage(t, dryRun, legacy, target);
      r.patch.image == t.patch.image && r.patch.gallery == t.patch.gallery
      && (r.thrown.None? ==> t.thrown.None?) && (t.thrown.Some? ==> r.thrown == t.thrown)
  {
  }

  /** An optional asset id as the list of ids it is. */
  function AssetList(a: Option<AssetId>): seq<AssetId> {
    if a.Some? then [a.value] else []
  }

  /** Step 1 does nothing once something was thrown, or when the target has
      an image or the legacy entry none. Otherwise it ends at the media
      migration's network and throws that migration's failure, or
      `NoUploadedAsset` when the upload response had no asset; on success
      it writes the uploaded asset's id. */
  lemma ImageStageRuns(t: Try, dryRun: bool, legacy: LegacyEntry, target: TargetEntry)
    ensures var r := ImageStage(t, dryRun, legacy, target);
      (t.thrown.Some? || !NeedsSingle(legacy.image, target.image) ==> r == t)
      && (t.thrown.None? && NeedsSingle(legacy.image, target.image) ==>
            var o := MigrateMediaSpec(t.net, dryRun, legacy.image.value);
            r.net == o.net
            && (o.result.Err? ==> r.thrown == Some(o.result.failure))
            && (o.result == Ok(None) ==> r.thrown == Some(NoUploadedAsset))
            && (o.result.Ok? && o.result.value.Some? ==> r.thrown.None? && r.patch.image == o.result.value))
  {
  }

  /** From upload replies `q` and requests `s0` a step ending in `r` left
      a suffix of the replies, extended the requests with downloads of
      `urls`, and, outside a dry run, took replies handing out exactly the
      asset `field` it wrote, or none when it threw. */
  predicate SingleTook(q: seq<Reply<seq<AssetId>>>, s0: seq<Request>, r: Try, urls: seq<string>,
                       field: Option<AssetId>, dryRun: bool) {
    var c := |q| - |r.net.uploads|;
    0 <= c <= |q| && r.net.uploads == q[c..]
    && s0 <= r.net.sent && Downloads(r.net.sent[|s0|..]) == urls
    && (!dryRun ==> UploadedAssets(q[..c]) == if r.thrown.None? then AssetList(field) else [])
  }

  /** Step 1 downloads the legacy image's URL when it runs and nothing
      otherwise; outside a dry run, the image it writes is the one asset
      handed out by the upload replies it takes, and a thrown error means
      none was handed out. */
  lemma ImageStageAssets(t: Try, dryRun: bool, legacy: LegacyEntry, target: TargetEntry)
    requires t.patch.image.None?
    ensures var r := ImageStage(t, dryRun, legacy, target);
      var ran := t.thrown.None? && NeedsSingle(legacy.image, target.image);
      SingleTook(t.net.uploads, t.net.sent, r, if ran then [legacy.image.value.url] else [], r.patch.image, dryRun)
  {
    if t.thrown.None? && NeedsSingle(legacy.image, target.image) {
      ImageStageRan(t, dryRun, legacy, target);
    } else {
      SkippedTook(t, dryRun);
    }
  }

  /** Step 1 when it runs. */
  lemma ImageStageRan(t: Try, dryRun: bool, legacy: LegacyEntry, target: TargetEntry)
    requires t.thrown.None? && NeedsSingle(legacy.image, target.image)
    ensures var r := ImageStage(t, dryRun, legacy, target);
      SingleTook(t.net.uploads, t.net.sent, r, [legacy.image.value.url], r.patch.image, dryRun)
  {
    var m := legacy.image.value;
    var r := ImageStage(t, dryRun, legacy, target);
    MigrateMediaAssets(t.net, dryRun, m);
    MigrateMediaDownloads(t.net, dryRun, m);
    ImageStageRuns(t, dryRun, legacy, target);
    SingleStageJoin(t.net.uploads, t.net.sent, m.url, MigrateMediaSpec(t.net, dryRun, m), r, r.patch.image, dryRun);
  }

  /** A step that does nothing takes no reply and downloads nothing. */
  lemma SkippedTook(t: Try, dryRun: bool)
    requires t.thrown.Some? || t.patch.image.None?
    ensures SingleTook(t.net.uploads, t.net.sent, t, [], t.patch.image, dryRun)
  {
    var q := t.net.uploads;
    assert q[0..] == q && q[..0] == [];
    assert t.net.sent[|t.net.sent|..] == [];
  }

  /** A step that ran one media migration of `url` with outcome `o`, ended
      at its network, and wrote `field` exactly when it threw nothing. */
  lemma SingleStageJoin(q: seq<Reply<seq<AssetId>>>, s0: seq<Request>, url: string,
                        o: Outcome<Option<AssetId>>, r: Try, field: Option<AssetId>, dryRun: bool)
    requires MediaTook(q, o, dryRun)
    requires s0 <= o.net.sent && Downloads(o.net.sent[|s0|..]) == [url]
    requires r.net == o.net
    requires r.thrown.None? <==> o.result.Ok? && o.result.value.Some?
    requires r.thrown.None? ==> field == o.result.value
    ensures SingleTook(q, s0, r, [url], field, dryRun)
  {
  }

  /** Step 3 does nothing once something was thrown, or when the target has
      a document or the legacy entry none; otherwise it behaves as step 1
      on the first legacy document. */
  lemma PdfStageRuns(t: Try, dryRun: bool, legacy: LegacyEntry, target: TargetEntry)
    ensures var r := PdfStage(t, dryRun, legacy, target);
      var pdf := LegacyPdf(legacy.pdf);
      (t.thrown.Some? || !NeedsSingle(pdf, target.dossier) ==> r == t)
      && (t.thrown.None? && NeedsSingle(pdf, target.dossier) ==>
            var o := MigrateMediaSpec(t.net, dryRun, pdf.value);
            r.net == o.net
            && (o.result.Err? ==> r.thrown == Some(o.result.failure))
            && (o.result == Ok(None) ==> r.thrown == Some(NoUploadedAsset))
            && (o.result.Ok? && o.result.value.Some? ==> r.thrown.None? && r.patch.dossier == o.result.value))
  {
  }

  /** Step 3 downloads the first legacy document's URL when it runs and
      nothing otherwise; outside a dry run, the document it writes is the
      one asset handed out by the upload replies it takes. */
  lemma PdfStageAssets(t: Try, dryRun: bool, legacy: LegacyEntry, target: TargetEntry)
    requires t.patch.dossier.None?
    ensures var r := PdfStage(t, dryRun, legacy, target);
      var pdf := LegacyPdf(legacy.pdf);
      var ran := t.thrown.None? && NeedsSingle(pdf, target.dossier);
      SingleTook(t.net.uploads, t.net.sent, r, if ran then [pdf.value.url] else [], r.patch.dossier, dryRun)
  {
    var pdf := LegacyPdf(legacy.pdf);
    if t.thrown.None? && NeedsSingle(pdf, target.dossier) {
      PdfStageRan(t, dryRun, legacy, target);
    } else {
      var q := t.net.uploads;
      assert q[0..] == q && q[..0] == [];
      assert t.net.sent[|t.net.sent|..] == [];
    }
  }

  /** Step 3 when it runs. */
  lemma PdfStageRan(t: Try, dryRun: bool, legacy: LegacyEntry, target: TargetEntry)
    requires t.thrown.None? && NeedsSingle(LegacyPdf(legacy.pdf), target.dossier)
    ensures var r := PdfStage(t, dryRun, legacy, target);
      SingleTook(t.net.uploads, t.net.sent, r, [LegacyPdf(legacy.pdf).value.url], r.patch.dossier, dryRun)
  {
    var m := LegacyPdf(legacy.pdf).value;
    var r := PdfStage(t, dryRun, legacy, target);
    MigrateMediaAssets(t.net, dryRun, m);
    MigrateMediaDownloads(t.net, dryRun, m);
    PdfStageRuns(t, dryRun, legacy, target);
    SingleStageJoin(t.net.uploads, t.net.sent, m.url, MigrateMediaSpec(t.net, dryRun, m), r, r.patch.dossier, dryRun);
  }

  /** Outside a dry run, step 2 sets the gallery exactly when some upload
      reply it takes hands out an asset, to the existing ids followed by
      all the assets handed out, in order. It takes no upload reply once
      something was thrown. */
  lemma GalleryStageAssets(t: Try, dryRun: bool, legacy: LegacyEntry, target: TargetEntry)
    ensures var r := GalleryStage(t, dryRun, legacy, target);
      (t.thrown.Some? ==> r.net.uploads == t.net.uploads)
      && GalleryTook(t.net.uploads, r, t.patch.gallery, target, dryRun)
  {
    var q := t.net.uploads;
    if t.thrown.None? && GalleryCandidates(legacy, target) != [] {
      GalleryStageRan(t, dryRun, legacy, target);
    } else {
      assert q[0..] == q && q[..0] == [];
    }
  }

  /** From upload replies `q` step 2 ending in `r` left a suffix, and
      outside a dry run set the gallery, previously `before`, exactly when
      the replies it took handed out assets: to the existing ids followed by
      those assets. */
  predicate GalleryTook(q: seq<Reply<seq<AssetId>>>, r: Try, before: Option<seq<AssetId>>, target: TargetEntry, dryRun: bool) {
    var c := |q| - |r.net.uploads|;
    0 <= c <= |q| && r.net.uploads == q[c..]
    && (!dryRun ==> var got := UploadedAssets(q[..c]);
          r.patch.gallery == if got == [] then before else Some(NewGallery(target, got)))
  }

  /** Step 2 when it runs the gallery loop. */
  lemma GalleryStageRan(t: Try, dryRun: bool, legacy: LegacyEntry, target: TargetEntry)
    requires t.thrown.None? && GalleryCandidates(legacy, target) != []
    ensures GalleryTook(t.net.uploads, GalleryStage(t, dryRun, legacy, target), t.patch.gallery, target, dryRun)
  {
    var p0 := Progress(t.net, t.stats, []);
    var g := GalleryLoop(p0, dryRun, GalleryCandidates(legacy, target));
    var r := GalleryStage(t, dryRun, legacy, target);
    GalleryLoopAssets(p0, dryRun, GalleryCandidates(legacy, target));
    assert r.net == g.net
      && r.patch.gallery == if g.ids == [] then t.patch.gallery else Some(NewGallery(target, g.ids));
    GalleryJoin(t.net.uploads, g, r, t.patch.gallery, target, dryRun);
  }

  /** Step 2 sets the gallery from the ids the loop appended. */
  lemma GalleryJoin(q: seq<Reply<seq<AssetId>>>, g: Progress, r: Try, before: Option<seq<AssetId>>, target: TargetEntry, dryRun: bool)
    requires TookAssets(q, g.net.uploads, [], g.ids, dryRun)
    requires r.net == g.net
    requires r.patch.gallery == if g.ids == [] then before else Some(NewGallery(target, g.ids))
    ensures GalleryTook(q, r, before, target, dryRun)
  {
    var c := |q| - |g.net.uploads|;
    assert [] + UploadedAssets(q[..c]) == UploadedAssets(q[..c]);
  }

  /** Step 2 downloads the candidates' URLs, in order, unless something was
      thrown before it. */
  lemma GalleryStageDownloads(t: Try, dryRun: bool, legacy: LegacyEntry, target: TargetEntry)
    ensures var r := GalleryStage(t, dryRun, legacy, target);
      t.net.sent <= r.net.sent
      && Downloads(r.net.sent[|t.net.sent|..]) == if t.thrown.None? then Urls(GalleryCandidates(legacy, target)) else []
  {
    var missing := GalleryCandidates(legacy, target);
    if t.thrown.None? && missing != [] {
      GalleryLoopDownloads(Progress(t.net, t.stats, []), dryRun, missing);
    } else {
      assert t.net.sent[|t.net.sent|..] == [];
    }
  }

  /** The three steps of an entry never update it; in a dry run they upload
      nothing either. Only fields the target lacks are written: the image
      and the document only when the target's is null or undefined, the
      gallery only from missing items and as the existing ids followed by
      at least one new id. When nothing was thrown, every single field the
      target lacks and the legacy entry has is in the patch. The counters
      agree with the patch, and `skipped` stays. */
  lemma StagesSpec(net: Net, dryRun: bool, stats: Stats, legacy: LegacyEntry, target: TargetEntry)
    ensures var t := Stages(net, dryRun, stats, legacy, target);
      var existing := IdsOf(ArrayOrEmpty(target.gallery));
      NoUpdate(net, t.net) && (dryRun ==> ReadOnly(net, t.net))
      && (t.patch.image.Some? ==> NeedsSingle(legacy.image, target.image))
      && (t.patch.dossier.Some? ==> NeedsSingle(LegacyPdf(legacy.pdf), target.dossier))
      && (t.patch.gallery.Some? ==> GalleryCandidates(legacy, target) != [] && existing < t.patch.gallery.value)
      && (t.thrown.None? && NeedsSingle(legacy.image, target.image) ==> t.patch.image.Some?)
      && (t.thrown.None? && NeedsSingle(LegacyPdf(legacy.pdf), target.dossier) ==> t.patch.dossier.Some?)
      && t.stats.image == stats.image + (if t.patch.image.Some? then 1 else 0)
      && t.stats.pdf == stats.pdf + (if t.patch.dossier.Some? then 1 else 0)
      && t.stats.gallery == stats.gallery + (if t.patch.gallery.Some? then |t.patch.gallery.value| - |existing| else 0)
      && Grows(stats, t.stats) && t.stats.skipped == stats.skipped
  {
    var t0 := Try(net, stats, EmptyPatch, None);
    var t1 := ImageStage(t0, dryRun, legacy, target);
    var t2 := GalleryStage(t1, dryRun, legacy, target);
    var t3 := PdfStage(t2, dryRun, legacy, target);
    ImageStageFacts(t0, dryRun, legacy, target);
    GalleryStageFacts(t1, dryRun, legacy, target);
    PdfStageFacts(t2, dryRun, legacy, target);
    PdfStageNet(t2, dryRun, legacy, target);
    NoUpdateTrans(net, t1.net, t2.net);
    NoUpdateTrans(net, t2.net, t3.net);
    if dryRun {
      ReadOnlyTrans(net, t1.net, t2.net);
      ReadOnlyTrans(net, t2.net, t3.net);
    }
  }

  /** The URLs the three steps of an entry download when nothing throws:
      the legacy image's if it is migrated, the gallery candidates', then
      the first legacy document's if it is migrated. */
  function StageUrls(legacy: LegacyEntry, target: TargetEntry): seq<string> {
    var pdf := LegacyPdf(legacy.pdf);
    (if NeedsSingle(legacy.image, target.image) then [legacy.image.value.url] else [])
    + Urls(GalleryCandidates(legacy, target))
    + (if NeedsSingle(pdf, target.dossier) then [pdf.value.url] else [])
  }

  /** The three steps of an entry download a prefix of `StageUrls`, in
      order, and all of it when nothing was thrown: a thrown error stops
      the downloads where it happened. */
  lemma StagesDownloads(net: Net, dryRun: bool, stats: Stats, legacy: LegacyEntry, target: TargetEntry)
    ensures var t := Stages(net, dryRun, stats, legacy, target);
      net.sent <= t.net.sent
      && Downloads(t.net.sent[|net.sent|..]) <= StageUrls(legacy, target)
      && (t.thrown.None? ==> Downloads(t.net.sent[|net.sent|..]) == StageUrls(legacy, target))
  {
    var pdf := LegacyPdf(legacy.pdf);
    var t0 := Try(net, stats, EmptyPatch, None);
    var t1 := ImageStage(t0, dryRun, legacy, target);
    var t2 := GalleryStage(t1, dryRun, legacy, target);
    var t3 := PdfStage(t2, dryRun, legacy, target);
    var d1 := if NeedsSingle(legacy.image, target.image) then [legacy.image.value.url] else [];
    var d3 := if NeedsSingle(pdf, target.dossier) then [pdf.value.url] else [];
    assert net.sent <= t1.net.sent && Downloads(t1.net.sent[|net.sent|..]) == d1 by {
      ImageStageAssets(t0, dryRun, legacy, target);
    }
    assert t3 == Stages(net, dryRun, stats, legacy, target);
    assert t2.patch.dossier.None? && t2.thrown == t1.thrown by {
      ImageStageKeeps(t0, dryRun, legacy, target);
      GalleryStageKeeps(t1, dryRun, legacy, target);
    }
    if t1.thrown.Some? {
      assert t3 == t1 by {
        PdfStageRuns(t2, dryRun, legacy, target);
      }
      assert d1 <= StageUrls(legacy, target);
    } else {
      assert t1.net.sent <= t2.net.sent
        && Downloads(t2.net.sent[|t1.net.sent|..]) == Urls(GalleryCandidates(legacy, target)) by {
        GalleryStageDownloads(t1, dryRun, legacy, target);
      }
      assert t2.net.sent <= t3.net.sent && Downloads(t3.net.sent[|t2.net.sent|..]) == d3 by {
        PdfStageAssets(t2, dryRun, legacy, target);
      }
      DownloadsOfThree(net.sent, t1.net.sent, t2.net.sent, t3.net.sent);
      assert StageUrls(legacy, target) == d1 + Urls(GalleryCandidates(legacy, target)) + d3;
    }
  }

  /** Downloads over three consecutive runs of requests. */
  lemma DownloadsOfThree(s0: seq<Request>, s1: seq<Request>, s2: seq<Request>, s3: seq<Request>)
    requires s0 <= s1 <= s2 <= s3
    ensures s0 <= s3
    ensures Downloads(s3[|s0|..]) == Downloads(s1[|s0|..]) + Downloads(s2[|s1|..]) + Downloads(s3[|s2|..])
  {
    SentBetween(s0, s1, s2);
    SentBetween(s0, s2, s3);
    DownloadsAppend(s1[|s0|..], s2[|s1|..]);
    DownloadsAppend(s2[|s0|..], s3[|s2|..]);
  }

  /** The ids a patch adds to the target's gallery. */
  function GalleryAdded(p: Patch, target: TargetEntry): seq<AssetId> {
    var existing := IdsOf(ArrayOrEmpty(target.gallery));
    if p.gallery.Some? && |existing| <= |p.gallery.value| then p.gallery.value[|existing|..] else []
  }

  /** Steps 1 and 2 of an entry, outside a dry run and when nothing was
      thrown: the assets handed out by the upload replies they take are the
      patch's image, then the new gallery ids. */
  lemma ImageGalleryAssets(net: Net, dryRun: bool, stats: Stats, legacy: LegacyEntry, target: TargetEntry)
    ensures var t1 := ImageStage(Try(net, stats, EmptyPatch, None), dryRun, legacy, target);
      StepTwoFacts(net.uploads, GalleryStage(t1, dryRun, legacy, target), dryRun, target)
  {
    var q := net.uploads;
    var t0 := Try(net, stats, EmptyPatch, None);
    var t1 := ImageStage(t0, dryRun, legacy, target);
    ImageStageAssets(t0, dryRun, legacy, target);
    ImageStageKeeps(t0, dryRun, legacy, target);
    GalleryAfterImage(q, |q| - |t1.net.uploads|, t1, dryRun, legacy, target);
  }

  /** Step 2 after the upload replies step 1 took. */
  lemma GalleryAfterImage(q: seq<Reply<seq<AssetId>>>, c1: nat, t1: Try, dryRun: bool, legacy: LegacyEntry, target: TargetEntry)
    requires c1 <= |q| && t1.net.uploads == q[c1..]
    requires t1.patch.gallery.None? && t1.patch.dossier.None?
    requires !dryRun ==> UploadedAssets(q[..c1]) == if t1.thrown.None? then AssetList(t1.patch.image) else []
    ensures StepTwoFacts(q, GalleryStage(t1, dryRun, legacy, target), dryRun, target)
  {
    var t2 := GalleryStage(t1, dryRun, legacy, target);
    assert StepTwoFacts(q, t2, dryRun, target) by {
      GalleryStageAssets(t1, dryRun, legacy, target);
      GalleryStageKeeps(t1, dryRun, legacy, target);
      StepTwoJoin(q, c1, t1, t2, dryRun, target);
    }
  }

  /** `t2` took a run of the upload replies `q`, which handed out its image
      and its new gallery ids. */
  predicate StepTwoFacts(q: seq<Reply<seq<AssetId>>>, t2: Try, dryRun: bool, target: TargetEntry) {
    var c := |q| - |t2.net.uploads|;
    0 <= c <= |q| && t2.net.uploads == q[c..]
    && (!dryRun && t2.thrown.None? ==>
          UploadedAssets(q[..c]) == AssetList(t2.patch.image) + GalleryAdded(t2.patch, target))
  }

  /** The upload replies taken by steps 1 and 2, from what each step takes. */
  lemma StepTwoJoin(q: seq<Reply<seq<AssetId>>>, c1: nat, t1: Try, t2: Try, dryRun: bool, target: TargetEntry)
    requires c1 <= |q| && t1.net.uploads == q[c1..]
    requires t1.patch.gallery.None? && t2.patch.dossier.None?
    requires t2.thrown == t1.thrown && t2.patch.image == t1.patch.image
    requires !dryRun ==> UploadedAssets(q[..c1]) == if t1.thrown.None? then AssetList(t1.patch.image) else []
    requires GalleryTook(t1.net.uploads, t2, t1.patch.gallery, target, dryRun)
    ensures StepTwoFacts(q, t2, dryRun, target) && t2.patch.dossier.None?
  {
    if !dryRun && t2.thrown.None? {
      StepTwoAssets(q, c1, t1, t2, target);
    } else {
      var c2 := |t1.net.uploads| - |t2.net.uploads|;
      SuffixOfSuffix(q, c1, c2);
    }
  }

  /** StepTwoJoin outside a dry run, when nothing was thrown. */
  lemma StepTwoAssets(q: seq<Reply<seq<AssetId>>>, c1: nat, t1: Try, t2: Try, target: TargetEntry)
    requires c1 <= |q| && t1.net.uploads == q[c1..]
    requires t1.patch.gallery.None? && t2.patch.dossier.None?
    requires t2.thrown.None? && t2.thrown == t1.thrown && t2.patch.image == t1.patch.image
    requires UploadedAssets(q[..c1]) == AssetList(t1.patch.image)
    requires GalleryTook(t1.net.uploads, t2, t1.patch.gallery, target, false)
    ensures StepTwoFacts(q, t2, false, target)
  {
    var c2 := |t1.net.uploads| - |t2.net.uploads|;
    SuffixOfSuffix(q, c1, c2);
    ImageGalleryJoin(q, c1, c2, AssetList(t2.patch.image), t2.patch, target);
  }

  lemma ImageGalleryJoin(q: seq<Reply<seq<AssetId>>>, c1: nat, c2: nat, image: seq<AssetId>, p: Patch, target: TargetEntry)
    requires c1 + c2 <= |q|
    requires UploadedAssets(q[..c1]) == image
    requires var got := UploadedAssets(q[c1..][..c2]);
      p.gallery == if got == [] then None else Some(NewGallery(target, got))
    ensures q[c1..][c2..] == q[c1 + c2..]
    ensures UploadedAssets(q[..c1 + c2]) == image + GalleryAdded(p, target)
  {
    UploadedAssetsJoin(q, c1, c2);
    GalleryPart(IdsOf(ArrayOrEmpty(target.gallery)), UploadedAssets(q[c1..][..c2]), p.gallery);
  }

  /** Outside a dry run, when nothing was thrown, the assets handed out by
      the upload replies of one entry's steps are exactly the ids its patch
      adds, in order: the image, the new gallery ids, the document. */
  lemma StagesAssets(net: Net, dryRun: bool, stats: Stats, legacy: LegacyEntry, target: TargetEntry)
    ensures var t := Stages(net, dryRun, stats, legacy, target);
      var q := net.uploads;
      var c := |q| - |t.net.uploads|;
      0 <= c <= |q| && t.net.uploads == q[c..]
      && (!dryRun && t.thrown.None? ==>
            UploadedAssets(q[..c]) == AssetList(t.patch.image) + GalleryAdded(t.patch, target) + AssetList(t.patch.dossier))
  {
    var q := net.uploads;
    var t0 := Try(net, stats, EmptyPatch, None);
    var t2 := GalleryStage(ImageStage(t0, dryRun, legacy, target), dryRun, legacy, target);
    assert StepTwoFacts(q, t2, dryRun, target) && t2.patch.dossier.None? by {
      ImageGalleryAssets(net, dryRun, stats, legacy, target);
      ImageStageKeeps(t0, dryRun, legacy, target);
      GalleryStageKeeps(ImageStage(t0, dryRun, legacy, target), dryRun, legacy, target);
    }
    assert StagesFacts(q, PdfStage(t2, dryRun, legacy, target), dryRun, target) by {
      PdfAfterGallery(q, t2, dryRun, legacy, target);
    }
  }

  /** `t` took a run of the upload replies `q`, which handed out the ids its
      patch adds, in order. */
  predicate StagesFacts(q: seq<Reply<seq<AssetId>>>, t: Try, dryRun: bool, target: TargetEntry) {
    var c := |q| - |t.net.uploads|;
    0 <= c <= |q| && t.net.uploads == q[c..]
    && (!dryRun && t.thrown.None? ==>
          UploadedAssets(q[..c]) == AssetList(t.patch.image) + GalleryAdded(t.patch, target) + AssetList(t.patch.dossier))
  }

  /** Step 3 after the upload replies steps 1 and 2 took. */
  lemma PdfAfterGallery(q: seq<Reply<seq<AssetId>>>, t2: Try, dryRun: bool, legacy: LegacyEntry, target: TargetEntry)
    requires StepTwoFacts(q, t2, dryRun, target) && t2.patch.dossier.None?
    ensures StagesFacts(q, PdfStage(t2, dryRun, legacy, target), dryRun, target)
  {
    var t3 := PdfStage(t2, dryRun, legacy, target);
    var pdf := LegacyPdf(legacy.pdf);
    var urls := if t2.thrown.None? && NeedsSingle(pdf, target.dossier) then [pdf.value.url] else [];
    PdfStageAssets(t2, dryRun, legacy, target);
    PdfStageKeeps(t2, dryRun, legacy, target);
    StepThreeJoin(q, t2, t3, t2.net.sent, urls, dryRun, target);
  }

  /** The upload replies taken by the three steps, from what steps 1 and 2
      take and what step 3 takes. */
  lemma StepThreeJoin(q: seq<Reply<seq<AssetId>>>, t2: Try, t3: Try, s0: seq<Request>, urls: seq<string>,
                      dryRun: bool, target: TargetEntry)
    requires StepTwoFacts(q, t2, dryRun, target)
    requires t3.patch.image == t2.patch.image && t3.patch.gallery == t2.patch.gallery && (t3.thrown.None? ==> t2.thrown.None?)
    requires SingleTook(t2.net.uploads, s0, t3, urls, t3.patch.dossier, dryRun)
    ensures StagesFacts(q, t3, dryRun, target)
  {
    var c1 := |q| - |t2.net.uploads|;
    var c2 := |t2.net.uploads| - |t3.net.uploads|;
    if !dryRun && t3.thrown.None? {
      StepThreeAssets(q, c1, c2, t2, t3, target);
    } else {
      SuffixOfSuffix(q, c1, c2);
    }
  }

  /** StepThreeJoin outside a dry run, when nothing was thrown. */
  lemma StepThreeAssets(q: seq<Reply<seq<AssetId>>>, c1: nat, c2: nat, t2: Try, t3: Try, target: TargetEntry)
    requires c1 + c2 <= |q| && t2.net.uploads == q[c1..] && t3.net.uploads == t2.net.uploads[c2..]
    requires t3.patch.image == t2.patch.image && t3.patch.gallery == t2.patch.gallery
    requires UploadedAssets(q[..c1]) == AssetList(t2.patch.image) + GalleryAdded(t2.patch, target)
    requires UploadedAssets(t2.net.uploads[..c2]) == AssetList(t3.patch.dossier)
    ensures StagesFacts(q, t3, false, target)
  {
    UploadedAssetsJoin(q, c1, c2);
    assert t3.net.uploads == q[c1 + c2..];
    assert GalleryAdded(t3.patch, target) == GalleryAdded(t2.patch, target);
  }

  /** The gallery ids after the existing ones are the new ones. */
  lemma GalleryPart(existing: seq<AssetId>, got: seq<AssetId>, gallery: Option<seq<AssetId>>)
    requires gallery == if got == [] then None else Some(existing + got)
    ensures got == if gallery.Some? then gallery.value[|existing|..] else []
  {
    if got != [] {
      assert (existing + got)[|existing|..] == got;
    }
  }

  /** One matched entry sends at most one update: none while its media are
      migrated, then one `PUT` of exactly the assembled fields to this
      entry when nothing was thrown, the fields are not empty and it is not
      a dry run. A thrown error counts once in `errors` and sends nothing
      more, and a dry run writes nothing. */
  lemma EntryUpdatesOnce(net: Net, dryRun: bool, stats: Stats, legacy: LegacyEntry, target: TargetEntry)
    ensures var t := Stages(net, dryRun, stats, legacy, target);
      var r := SpectacleEntry(net, dryRun, stats, legacy, target);
      NoUpdate(net, t.net)
      && (if !dryRun && t.thrown.None? && Keys(t.patch) != {}
          then r.net.sent == t.net.sent + [Put(Endpoint, target.documentId, t.patch)]
          else r.net == t.net)
      && (t.thrown.Some? ==> r.stats == t.stats.(errors := t.stats.errors + 1))
      && (dryRun ==> ReadOnly(net, r.net))
  {
    StagesSpec(net, dryRun, stats, legacy, target);
  }

  /** What the update adds to an entry's counters: nothing when the patch is
      empty or in a dry run; otherwise one error exactly when the update
      reply is not an ok JSON answer. */
  lemma EntryUpdateCounters(net: Net, dryRun: bool, stats: Stats, legacy: LegacyEntry, target: TargetEntry)
    ensures var t := Stages(net, dryRun, stats, legacy, target);
      var r := SpectacleEntry(net, dryRun, stats, legacy, target);
      var u := ReplyAt(t.net.updates, 0);
      (t.thrown.None? && (dryRun || Keys(t.patch) == {}) ==> r.stats == t.stats)
      && (t.thrown.None? && !dryRun && Keys(t.patch) != {} ==>
            r.stats == if u.Answer? && u.ok && u.parsed.Some? then t.stats else t.stats.(errors := t.stats.errors + 1))
  {
  }

  /** The counters of one matched entry only grow, and `skipped` stays. */
  lemma EntryCounters(net: Net, dryRun: bool, stats: Stats, legacy: LegacyEntry, target: TargetEntry)
    ensures var r := SpectacleEntry(net, dryRun, stats, legacy, target);
      Grows(stats, r.stats) && r.stats.skipped == stats.skipped && Extends(net, r.net)
  {
    StagesSpec(net, dryRun, stats, legacy, target);
  }

  /** A legacy spectacle with no target of the same slug is counted in
      `skipped` and sends nothing. */
  lemma UnmatchedSkipped(tally: Tally, dryRun: bool, bySlug: map<string, TargetEntry>, legacy: LegacyEntry)
    requires legacy.slug !in bySlug
    ensures SpectacleStep(tally, dryRun, bySlug, legacy) == Tally(tally.net, tally.stats.(skipped := tally.stats.skipped + 1))
  {
  }

  /** The number of legacy entries without a target of the same slug. */
  function Unmatched(bySlug: map<string, TargetEntry>, legacy: seq<LegacyEntry>): nat {
    if legacy == [] then 0 else (if legacy[0].slug in bySlug then 0 else 1) + Unmatched(bySlug, legacy[1..])
  }

  /** Over a run, `skipped` counts exactly the unmatched entries, every
      counter only grows, and a dry run writes nothing. */
  lemma {:induction false} RunCounts(tally: Tally, dryRun: bool, bySlug: map<string, TargetEntry>, legacy: seq<LegacyEntry>)
    decreases |legacy|
    ensures var r := SpectacleRun(tally, dryRun, bySlug, legacy);
      r.stats.skipped == tally.stats.skipped + Unmatched(bySlug, legacy)
      && Grows(tally.stats, r.stats)
      && Extends(tally.net, r.net)
      && (dryRun ==> ReadOnly(tally.net, r.net))
  {
    if legacy != [] {
      var v := legacy[0];
      var next := SpectacleStep(tally, dryRun, bySlug, v);
      RunCounts(next, dryRun, bySlug, legacy[1..]);
      var r := SpectacleRun(next, dryRun, bySlug, legacy[1..]);
      if v.slug in bySlug {
        EntryCounters(tally.net, dryRun, tally.stats, v, bySlug[v.slug]);
        if dryRun {
          EntryUpdatesOnce(tally.net, dryRun, tally.stats, v, bySlug[v.slug]);
          ReadOnlyTrans(tally.net, next.net, r.net);
        }
      }
    }
  }

  /** A dry run of migrateSpectacles only reads: it uploads nothing and
      updates no entry. */
  lemma SpectaclesDryRunReadOnly(net: Net)
    ensures ReadOnly(net, MigrateSpectaclesSpec(net, true).net)
  {
    var v3 := FetchLegacySpec(net, Endpoint);
    assert ReadOnly(net, v3.net) by {
      assert v3.net.sent[|net.sent|] == ListLegacy(Endpoint);
    }
    if v3.result.Ok? {
      var v5 := PagesFrom(v3.net, Endpoint, 1, []);
      PagesReadOnly(v3.net, Endpoint, 1, []);
      ReadOnlyTrans(net, v3.net, v5.net);
      if v5.result.Ok? {
        var bySlug := LookupOf(v5.result.value, SlugKey);
        RunCounts(Tally(v5.net, NoStats), true, bySlug, v3.result.value);
        ReadOnlyTrans(net, v5.net, SpectacleRun(Tally(v5.net, NoStats), true, bySlug, v3.result.value).net);
      }
    }
  }

  /** migrateSpectacles throws only when reading a listing fails, and then
      it has sent nothing but listing requests for spectacles: no media is
      touched and no entry updated. Failures of an entry never escape it. */
  lemma ListingFailureTouchesNothing(net: Net, dryRun: bool)
    ensures var r := MigrateSpectaclesSpec(net, dryRun);
      r.result.Err? ==>
        ListingFailure(r.result.failure)
        && forall k :: |net.sent| <= k < |r.net.sent| ==>
             (r.net.sent[k].ListLegacy? || r.net.sent[k].ListTarget?) && r.net.sent[k].endpoint == Endpoint
  {
    var v3 := FetchLegacySpec(net, Endpoint);
    if v3.result.Ok? {
      var v5 := PagesFrom(v3.net, Endpoint, 1, []);
      if v5.result.Err? {
        PagesFailure(v3.net, Endpoint, 1, []);
        PagesRequestedInOrder(v3.net, Endpoint, 1, []);
        forall k | |net.sent| <= k < |v5.net.sent|
          ensures (v5.net.sent[k].ListLegacy? || v5.net.sent[k].ListTarget?) && v5.net.sent[k].endpoint == Endpoint
        {
          if k >= |v3.net.sent| {
            assert v5.net.sent[k] == v5.net.sent[|v3.net.sent|..][k - |v3.net.sent|];
          } else {
            assert v5.net.sent[k] == v3.net.sent[k];
          }
        }
      }
    }
  }
}
