/**
 * The entries of the two content stores as seen by the media migration,
 * and the pure part of the per-field diff: file name and MIME defaults,
 * the legacy document normalisation and the gallery complement.
 *
 * A JavaScript field that may be null, undefined or falsy is an `Option`;
 * which of those it was is kept only where the script tells them apart.
 */
module Content {
  import opened Wrappers
  import Text

  /** The id of an asset in the target store; a dry run hands out the
      placeholder `'dry-run-id'`. */
  datatype AssetId = AssetNumber(n: int) | DryRunId

  /** A legacy media object: its URL and its optional `name` and `mime`. */
  datatype Media = Media(url: string, name: Option<string>, mime: Option<string>)

  /** The legacy `pdf` field: absent or falsy, a single object, or an array
      whose elements may be null. */
  datatype PdfField = NoPdf | SinglePdf(media: Media) | PdfArray(items: seq<Option<Media>>)

  /** A legacy entry. `image` is None when falsy; `galery` is None when it is
      not an array. Spectacles are keyed by `slug`, podcasts by `title`. */
  datatype LegacyEntry = LegacyEntry(
    slug: string,
    title: Option<string>,
    image: Option<Media>,
    galery: Option<seq<Media>>,
    pdf: PdfField)

  /** An item of a target gallery: its id and its optional `name`. */
  datatype GalleryItem = GalleryItem(id: AssetId, name: Option<string>)

  /** A target entry. `image` and `dossier` are None exactly when the field is
      null or undefined; `gallery` is None when it is not an array. */
  datatype TargetEntry = TargetEntry(
    documentId: string,
    slug: string,
    title: Option<string>,
    image: Option<AssetId>,
    gallery: Option<seq<GalleryItem>>,
    dossier: Option<AssetId>)

  /** The `updateData` object: a field is Some once the script assigned it. */
  datatype Patch = Patch(image: Option<AssetId>, gallery: Option<seq<AssetId>>, dossier: Option<AssetId>)

  const EmptyPatch := Patch(None, None, None)

  /** `Object.keys(updateData)`. */
  function Keys(p: Patch): (k: set<string>)
    ensures "image" in k <==> p.image.Some?
    ensures "gallery" in k <==> p.gallery.Some?
    ensures "dossier_de_diffusion" in k <==> p.dossier.Some?
    ensures k <= {"image", "gallery", "dossier_de_diffusion"}
  {
    (if p.image.Some? then {"image"} else {})
    + (if p.gallery.Some? then {"gallery"} else {})
    + (if p.dossier.Some? then {"dossier_de_diffusion"} else {})
  }

  /** The `stats` counters of one category. Podcasts use only `image`,
      `skipped` and `errors`. */
  datatype Stats = Stats(image: nat, gallery: nat, pdf: nat, skipped: nat, errors: nat)

  const NoStats := Stats(0, 0, 0, 0, 0)

  /** Every counter of `b` is at least the one of `a`. */
  predicate Grows(a: Stats, b: Stats) {
    a.image <= b.image && a.gallery <= b.gallery && a.pdf <= b.pdf
    && a.skipped <= b.skipped && a.errors <= b.errors
  }

  /** `mediaObj.name || url.split('/').pop()`. */
  function FileName(m: Media): (r: string)
    ensures m.name.Some? && m.name.value != "" ==> r == m.name.value
    ensures (m.name.None? || m.name.value == "") ==> r == Text.LastSegment(m.url)
  {
    if m.name.Some? && m.name.value != "" then m.name.value else Text.LastSegment(m.url)
  }

  const OctetStream := "application/octet-stream"

  /** `mediaObj.mime || 'application/octet-stream'`. */
  function MimeType(m: Media): (r: string)
    ensures r != ""
    ensures m.mime.Some? && m.mime.value != "" ==> r == m.mime.value
    ensures (m.mime.None? || m.mime.value == "") ==> r == OctetStream
  {
    if m.mime.Some? && m.mime.value != "" then m.mime.value else OctetStream
  }

  /** `Array.isArray(x) ? x : []`. */
  function ArrayOrEmpty<T>(x: Option<seq<T>>): seq<T> {
    if x.Some? then x.value else []
  }

  /** The legacy document after `Array.isArray(pdf) ? pdf[0] : pdf`; None
      stands for every falsy outcome. */
  function LegacyPdf(pdf: PdfField): (r: Option<Media>)
    ensures pdf.NoPdf? ==> r.None?
    ensures pdf.SinglePdf? ==> r == Some(pdf.media)
    ensures pdf.PdfArray? ==> r == (if |pdf.items| == 0 then None else pdf.items[0])
  {
    match pdf
    case NoPdf => None
    case SinglePdf(m) => Some(m)
    case PdfArray(items) => if |items| == 0 then None else items[0]
  }

  /** The single-field rule shared by `image` and `dossier_de_diffusion`:
      migrate when the legacy value is truthy and the target one is null or
      undefined. Any target value, even a different one, means skip. */
  predicate NeedsSingle<A>(legacy: Option<Media>, target: Option<A>) {
    legacy.Some? && target.None?
  }

  /** `new Set(v5Gallery.map(g => g.name))`. */
  function NamesOf(items: seq<GalleryItem>): (r: set<Option<string>>)
    ensures forall i :: 0 <= i < |items| ==> items[i].name in r
    ensures forall n :: n in r ==> exists i :: 0 <= i < |items| && items[i].name == n
  {
    set i | 0 <= i < |items| :: items[i].name
  }

  /** `v5Gallery.map(g => g.id)`. */
  function IdsOf(items: seq<GalleryItem>): (r: seq<AssetId>)
    ensures |r| == |items|
    ensures forall i :: 0 <= i < |items| ==> r[i] == items[i].id
  {
    seq(|items|, i requires 0 <= i < |items| => items[i].id)
  }

  /** `a` is `b` with some elements left out, order kept. */
  predicate IsSubsequence<T(==)>(a: seq<T>, b: seq<T>)
    decreases |b|
  {
    a == [] || (b != [] && if a[0] == b[0] then IsSubsequence(a[1..], b[1..]) else IsSubsequence(a, b[1..]))
  }

  /** Whether the target already holds an item with this legacy item's
      file name. */
  predicate Present(item: Media, names: set<Option<string>>) {
    Some(FileName(item)) in names
  }

  /** The `missing` filter: the legacy items, in legacy order, whose file
      name is not among the target names. */
  function MissingItems(legacy: seq<Media>, names: set<Option<string>>): (r: seq<Media>)
    ensures |r| <= |legacy|
    ensures IsSubsequence(r, legacy)
    ensures forall x :: x in r ==> x in legacy && !Present(x, names)
    ensures forall x :: x in legacy && !Present(x, names) ==> x in r
    ensures forall x :: multiset(r)[x] == if Present(x, names) then 0 else multiset(legacy)[x]
  {
    if legacy == [] then []
    else
      assert legacy == [legacy[0]] + legacy[1..];
      if Present(legacy[0], names) then MissingItems(legacy[1..], names)
      else [legacy[0]] + MissingItems(legacy[1..], names)
  }

  /** The gallery items the script will try to migrate: the complement, but
      only when the legacy gallery is non-empty and the target one strictly
      shorter. */
  function GalleryCandidates(legacy: LegacyEntry, target: TargetEntry): seq<Media> {
    var lg := ArrayOrEmpty(legacy.galery);
    var tg := ArrayOrEmpty(target.gallery);
    if |lg| > 0 && |tg| < |lg| then MissingItems(lg, NamesOf(tg)) else []
  }

  // ---- Properties of the gallery diff ----

  /** Candidates exist only when the legacy gallery is non-empty and the
      target one strictly shorter; then they are exactly the legacy items
      whose name the target lacks, in legacy order, each as often as in the
      legacy gallery. */
  lemma GalleryCandidatesSpec(legacy: LegacyEntry, target: TargetEntry)
    ensures var lg, tg := ArrayOrEmpty(legacy.galery), ArrayOrEmpty(target.gallery);
      var c := GalleryCandidates(legacy, target);
      (c != [] ==> 0 < |lg| && |tg| < |lg|)
      && IsSubsequence(c, lg)
      && (0 < |lg| && |tg| < |lg| ==>
            (forall x :: x in c <==> x in lg && !Present(x, NamesOf(tg)))
            && forall x :: multiset(c)[x] == if Present(x, NamesOf(tg)) then 0 else multiset(lg)[x])
  {
    var lg := ArrayOrEmpty(legacy.galery);
    if !(|lg| > 0) || !(|ArrayOrEmpty(target.gallery)| < |lg|) {
      assert GalleryCandidates(legacy, target) == [];
    }
  }

  /** Re-running is idempotent on names: once the target gallery carries each
      uploaded item under its file name, none of them is a candidate again. */
  lemma {:induction false} RerunSkipsUploaded(legacy: seq<Media>, target: seq<GalleryItem>, added: seq<GalleryItem>)
    requires forall x :: x in MissingItems(legacy, NamesOf(target)) ==>
               exists j :: 0 <= j < |added| && added[j].name == Some(FileName(x))
    ensures MissingItems(legacy, NamesOf(target + added)) == []
  {
    if legacy != [] {
      var x := legacy[0];
      if !Present(x, NamesOf(target)) {
        assert x in MissingItems(legacy, NamesOf(target));
        var j :| 0 <= j < |added| && added[j].name == Some(FileName(x));
        assert (target + added)[|target| + j] == added[j];
      } else {
        var i :| 0 <= i < |target| && target[i].name == Some(FileName(x));
        assert (target + added)[i] == target[i];
      }
      assert Present(x, NamesOf(target + added));
      forall y | y in MissingItems(legacy[1..], NamesOf(target))
        ensures exists j :: 0 <= j < |added| && added[j].name == Some(FileName(y))
      {
        assert y in MissingItems(legacy, NamesOf(target));
      }
      RerunSkipsUploaded(legacy[1..], target, added);
    }
  }
}
