/**
 * migrateMediaFile: one legacy media object downloaded and re-uploaded to
 * the target store, followed by the 500 ms rate-limiting pause.
 */
module Migrator {
  import opened Wrappers
  import opened Content
  import opened Network

  const PacingDelay := 500

  /** The network and a category's counters, between two legacy entries. */
  datatype Tally = Tally(net: Net, stats: Stats)

  /** Download (one attempt), then upload under the object's file name and
      MIME type, then pause. The uploaded asset may be undefined (an empty
      upload response); the caller reads its id. */
  function MigrateMediaSpec(net: Net, dryRun: bool, m: Media): (r: Outcome<Option<AssetId>>)
    ensures Extends(net, r.net)
    ensures dryRun && r.result.Ok? ==> r.result.value == Some(DryRunId)
  {
    var d := DownloadSpec(net, m.url);
    if d.result.Err? then Outcome(d.net, Err(d.result.failure))
    else
      var u := UploadSpec(d.net, dryRun, FileName(m), MimeType(m));
      if u.result.Err? then Outcome(u.net, Err(u.result.failure))
      else Outcome(u.net.(slept := u.net.slept + [PacingDelay]), Ok(u.result.value))
  }

  method MigrateMediaFile(net: Net, dryRun: bool, m: Media) returns (r: Outcome<Option<AssetId>>)
    ensures r == MigrateMediaSpec(net, dryRun, m)
  {
    var fileName := FileName(m);
    var mimeType := MimeType(m);
    var d := DownloadSpec(net, m.url);
    if d.result.Err? {
      return Outcome(d.net, Err(d.result.failure));
    }
    var u := UploadToStrapi(d.net, dryRun, fileName, mimeType);
    if u.result.Err? {
      return Outcome(u.net, Err(u.result.failure));
    }
    return Outcome(u.net.(slept := u.net.slept + [PacingDelay]), Ok(u.result.value));
  }

  /** Beyond their shape, the requests of one media migration never update
      an entry, and in a dry run upload nothing. A success ends with the
      500 ms pause. */
  lemma MigrateMediaRequests(net: Net, dryRun: bool, m: Media)
    ensures var r := MigrateMediaSpec(net, dryRun, m);
      var k := |r.net.sent| - |net.sent| - 1;
      0 <= k <= Retries
      && r.net.sent == net.sent + [Download(m.url)] + Repeat(Upload(FileName(m), MimeType(m)), k)
      && (dryRun ==> k == 0)
      && NoUpdate(net, r.net)
      && (dryRun ==> ReadOnly(net, r.net))
      && (r.result.Ok? ==> |r.net.slept| > 0 && r.net.slept[|r.net.slept| - 1] == PacingDelay)
  {
    var d := DownloadSpec(net, m.url);
    var r := MigrateMediaSpec(net, dryRun, m);
    var up := Upload(FileName(m), MimeType(m));
    if d.result.Err? || dryRun {
      assert r.net.sent == d.net.sent == net.sent + [Download(m.url)] + Repeat(up, 0);
    } else {
      UploadFromSent(d.net, FileName(m), MimeType(m), 0);
      var u := UploadFrom(d.net, FileName(m), MimeType(m), 0);
      var k := |u.net.sent| - |d.net.sent|;
      assert r.net.sent == u.net.sent == net.sent + [Download(m.url)] + Repeat(up, k);
      forall j | |net.sent| <= j < |r.net.sent| ensures !r.net.sent[j].Put? {
        if j > |net.sent| {
          assert r.net.sent[j] == Repeat(up, k)[j - |net.sent| - 1];
        }
      }
    }
  }

  /** One media migration downloads exactly its own URL, once. */
  lemma MigrateMediaDownloads(net: Net, dryRun: bool, m: Media)
    ensures var r := MigrateMediaSpec(net, dryRun, m);
      Downloads(r.net.sent[|net.sent|..]) == [m.url]
  {
    var d := DownloadSpec(net, m.url);
    var up := Upload(FileName(m), MimeType(m));
    if d.result.Err? || dryRun {
      ShapeDownloads(net.sent, d.net.sent, m.url, up, 0);
    } else {
      var u := UploadFrom(d.net, FileName(m), MimeType(m), 0);
      UploadFromSent(d.net, FileName(m), MimeType(m), 0);
      ShapeDownloads(net.sent, u.net.sent, m.url, up, |u.net.sent| - |d.net.sent|);
    }
  }

  /** A download followed by uploads downloads the one URL. */
  lemma ShapeDownloads(s0: seq<Request>, s: seq<Request>, url: string, up: Request, k: nat)
    requires up.Upload? && s == s0 + [Download(url)] + Repeat(up, k)
    ensures Downloads(s[|s0|..]) == [url]
  {
    assert s[|s0|..] == [Download(url)] + Repeat(up, k);
    DownloadsAppend([Download(url)], Repeat(up, k));
    DownloadsOfRepeat(up, k);
    assert Downloads([Download(url)]) == [url] + Downloads([]);
  }

  /** From upload replies `q` a media migration with outcome `r` left a
      suffix: none taken in a dry run, and otherwise replies whose only
      handed-out asset is the one `r` returns (none when it fails or got an
      empty array). */
  predicate MediaTook(q: seq<Reply<seq<AssetId>>>, r: Outcome<Option<AssetId>>, dryRun: bool) {
    var c := |q| - |r.net.uploads|;
    0 <= c <= |q| && r.net.uploads == q[c..]
    && (dryRun ==> c == 0)
    && (!dryRun ==> UploadedAssets(q[..c]) == if r.result.Ok? && r.result.value.Some? then [r.result.value.value] else [])
  }

  /** The upload replies one media migration takes: none in a dry run, and
      otherwise a run whose only handed-out asset is the one it returns
      (no asset at all when it fails or gets an empty array). */
  lemma MigrateMediaAssets(net: Net, dryRun: bool, m: Media)
    ensures MediaTook(net.uploads, MigrateMediaSpec(net, dryRun, m), dryRun)
  {
    if DownloadSpec(net, m.url).result.Err? || dryRun {
      MediaAssetsSkipped(net, dryRun, m);
    } else {
      MediaAssetsUploaded(net, dryRun, m);
    }
  }

  /** A failed download or a dry run takes no upload reply. */
  lemma MediaAssetsSkipped(net: Net, dryRun: bool, m: Media)
    requires DownloadSpec(net, m.url).result.Err? || dryRun
    ensures MediaTook(net.uploads, MigrateMediaSpec(net, dryRun, m), dryRun)
  {
    var q := net.uploads;
    var r := MigrateMediaSpec(net, dryRun, m);
    assert r.net.uploads == q == q[0..];
    assert q[..0] == [] && UploadedAssets([]) == [];
    assert DownloadSpec(net, m.url).result.Err? ==> r.result.Err?;
  }

  /** Otherwise the replies taken are those of the upload run. */
  lemma MediaAssetsUploaded(net: Net, dryRun: bool, m: Media)
    requires DownloadSpec(net, m.url).result.Ok? && !dryRun
    ensures MediaTook(net.uploads, MigrateMediaSpec(net, dryRun, m), dryRun)
  {
    var d := DownloadSpec(net, m.url);
    var q := net.uploads;
    assert d.net.uploads == q;
    var r := MigrateMediaSpec(net, dryRun, m);
    var u := UploadFrom(d.net, FileName(m), MimeType(m), 0);
    UploadAssets(d.net, FileName(m), MimeType(m), 0);
    assert r.net.uploads == u.net.uploads;
    assert r.result.Ok? == u.result.Ok? && (r.result.Ok? ==> r.result.value == u.result.value);
    AssetsOfUpload(q, r, u);
  }

  /** The upload replies an outcome takes, carried over from the upload run
      whose replies and result it keeps. */
  lemma AssetsOfUpload(q: seq<Reply<seq<AssetId>>>, r: Outcome<Option<AssetId>>, u: Outcome<Option<AssetId>>)
    requires var c := |q| - |u.net.uploads|;
      0 <= c <= |q| && u.net.uploads == q[c..]
      && UploadedAssets(q[..c]) == (if u.result.Ok? && u.result.value.Some? then [u.result.value.value] else [])
    requires r.net.uploads == u.net.uploads
    requires r.result.Ok? == u.result.Ok? && (r.result.Ok? ==> r.result.value == u.result.value)
    ensures MediaTook(q, r, false)
  {
  }
}
