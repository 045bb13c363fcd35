/**
 * The HTTP side of the migration script. The network is an oracle: one queue
 * of replies per kind of request (legacy listings, target pages, downloads,
 * uploads, updates). A request takes the next reply of its queue; once a
 * queue is used up, `fetch` rejects. Every request made is appended to
 * `sent` and every pause to `slept` (in milliseconds), instead of happening.
 */
module Network {
  import opened Wrappers
  import opened Content
  import Text

  /** What `fetch` gives back: a rejection, or a response with its `ok` flag,
      status, body text and, when the body is JSON, its parsed value. */
  datatype Reply<T> = Refused | Answer(ok: bool, status: int, body: string, parsed: Option<T>)

  /** `json.meta.pagination.pageCount`: `meta.pagination` missing, or
      present without a page count, or the page count. */
  datatype Meta = MetaMissing | PageCountMissing | PageCount(count: int)

  /** A page of the target store. `data` is None when falsy. */
  datatype PageBody = PageBody(data: Option<seq<TargetEntry>>, meta: Meta)

  datatype Request =
    | ListLegacy(endpoint: string)
    | ListTarget(endpoint: string, page: int)
    | Download(url: string)
    | Upload(fileName: string, mimeType: string)
    | Put(endpoint: string, documentId: string, patch: Patch)

  /** Requests that change the target store. */
  predicate IsWrite(r: Request) {
    r.Upload? || r.Put?
  }

  datatype Net = Net(
    legacyLists: seq<Reply<seq<LegacyEntry>>>,
    targetPages: seq<Reply<PageBody>>,
    downloads: seq<Reply<()>>,
    uploads: seq<Reply<seq<AssetId>>>,
    updates: seq<Reply<()>>,
    sent: seq<Request>,
    slept: seq<nat>)

  /** The errors the script throws, told apart by where they come from. */
  datatype Failure =
    | NetworkError                                        // `fetch` itself rejected
    | HttpFailure(status: int, text: string)              // fetchWithRetry, last attempt not ok
    | NotJson(text: string)                               // fetchWithRetry, last body not JSON
    | LegacyFetchFailed(endpoint: string, status: int)    // fetchV3
    | DownloadFailed(url: string, status: int)            // downloadFile
    | UploadFailed(fileName: string, status: int, text: string)
    | UpdateFailed(endpoint: string, documentId: string, status: int, text: string)
    | BodyNotJson                                         // `res.json()` threw
    | NoUploadedAsset                                     // `.id` read on the undefined first element of an empty upload response
    | NoPagination                                        // `pageCount` read on an undefined `meta.pagination`

  datatype Result<T> = Ok(value: T) | Err(failure: Failure)

  /** The network after a call, and what the call returned or threw. */
  datatype Outcome<T> = Outcome(net: Net, result: Result<T>)

  /** The reply at position `j` of a queue; past the end, a rejection. */
  function ReplyAt<T>(q: seq<Reply<T>>, j: nat): Reply<T> {
    if j < |q| then q[j] else Refused
  }

  /** The queue once `k` replies are taken. */
  function Drop<T>(q: seq<Reply<T>>, k: nat): (r: seq<Reply<T>>)
    ensures |r| == if k < |q| then |q| - k else 0
  {
    if k < |q| then q[k..] else []
  }

  /** Two networks, the second at a later time: the logs only grow. */
  predicate Extends(a: Net, b: Net) {
    a.sent <= b.sent && a.slept <= b.slept
  }

  /** Between `a` and `b`, nothing was uploaded and no entry was updated. */
  predicate ReadOnly(a: Net, b: Net) {
    Extends(a, b) && forall k :: |a.sent| <= k < |b.sent| ==> !IsWrite(b.sent[k])
  }

  /** Between `a` and `b`, no entry was updated. */
  predicate NoUpdate(a: Net, b: Net) {
    Extends(a, b) && forall k :: |a.sent| <= k < |b.sent| ==> !b.sent[k].Put?
  }

  lemma ReadOnlyTrans(a: Net, b: Net, c: Net)
    requires ReadOnly(a, b) && ReadOnly(b, c)
    ensures ReadOnly(a, c)
  {
    forall k | |a.sent| <= k < |c.sent| ensures !IsWrite(c.sent[k]) {
      if k < |b.sent| {
        assert c.sent[k] == b.sent[k];
      }
    }
  }

  lemma NoUpdateTrans(a: Net, b: Net, c: Net)
    requires NoUpdate(a, b) && NoUpdate(b, c)
    ensures NoUpdate(a, c)
  {
    forall k | |a.sent| <= k < |c.sent| ensures !c.sent[k].Put? {
      if k < |b.sent| {
        assert c.sent[k] == b.sent[k];
      }
    }
  }

  lemma ReadOnlyNoUpdate(a: Net, b: Net)
    requires ReadOnly(a, b)
    ensures NoUpdate(a, b)
  {
    forall k | |a.sent| <= k < |b.sent| ensures !b.sent[k].Put? {
      assert !IsWrite(b.sent[k]);
    }
  }

  /** Dropping `k` then `c` elements drops `k + c`. */
  lemma SuffixOfSuffix<T>(q: seq<T>, k: nat, c: nat)
    requires k + c <= |q|
    ensures q[k..][c..] == q[k + c..]
  {
  }

  /** What was sent between `a` and `c` is what was sent up to `b` and after. */
  lemma SentBetween<T>(a: seq<T>, b: seq<T>, c: seq<T>)
    requires a <= b <= c
    ensures c[|a|..] == b[|a|..] + c[|b|..]
  {
    assert c == b + c[|b|..];
  }

  /** `k` copies of one request. */
  function Repeat(r: Request, k: nat): (s: seq<Request>)
    ensures |s| == k && forall j :: 0 <= j < k ==> s[j] == r
  {
    seq(k, j => r)
  }

  /** The URLs downloaded by a run of requests, in order. */
  function Downloads(s: seq<Request>): seq<string> {
    if s == [] then [] else (if s[0].Download? then [s[0].url] else []) + Downloads(s[1..])
  }

  lemma {:induction false} DownloadsAppend(a: seq<Request>, b: seq<Request>)
    ensures Downloads(a + b) == Downloads(a) + Downloads(b)
  {
    if a == [] {
      assert a + b == b;
    } else {
      assert (a + b)[0] == a[0] && (a + b)[1..] == a[1..] + b;
      DownloadsAppend(a[1..], b);
    }
  }

  lemma {:induction false} DownloadsOfRepeat(r: Request, k: nat)
    requires !r.Download?
    ensures Downloads(Repeat(r, k)) == []
  {
    if k > 0 {
      assert Repeat(r, k)[1..] == Repeat(r, k - 1);
      DownloadsOfRepeat(r, k - 1);
    }
  }

  /** The pauses of a linear backoff after attempts `lo` .. `hi - 1`:
      `base * (attempt + 1)` each. */
  function Backoff(base: nat, lo: nat, hi: nat): (s: seq<nat>)
    requires lo <= hi
    ensures |s| == hi - lo && forall j :: 0 <= j < hi - lo ==> s[j] == base * (lo + j + 1)
  {
    seq(hi - lo, j => base * (lo + j + 1))
  }

  const Retries := 3
  const FetchBackoff := 2000
  const UploadBackoff := 3000

  // ---- fetchWithRetry ----

  /** A reply fetchWithRetry counts as a failed attempt: a non-ok status or
      an ok status with a body that is not JSON, alike. */
  predicate FetchRetryable(r: Reply<PageBody>) {
    r.Answer? && !(r.ok && r.parsed.Some?)
  }

  /** What fetchWithRetry throws after its last failed attempt. */
  function FetchGiveUp(r: Reply<PageBody>): Failure
    requires FetchRetryable(r)
  {
    if !r.ok then HttpFailure(r.status, Text.Truncate(r.body)) else NotJson(Text.Truncate(r.body))
  }

  /** fetchWithRetry from attempt `i` on. */
  function FetchFrom(net: Net, endpoint: string, page: int, i: nat): (r: Outcome<PageBody>)
    requires i < Retries
    decreases Retries - i
    ensures Extends(net, r.net)
    ensures r.result.Ok? ==> |r.net.targetPages| < |net.targetPages|
  {
    var reply := ReplyAt(net.targetPages, 0);
    var net1 := net.(targetPages := Drop(net.targetPages, 1), sent := net.sent + [ListTarget(endpoint, page)]);
    if reply.Refused? then Outcome(net1, Err(NetworkError))
    else if !FetchRetryable(reply) then Outcome(net1, Ok(reply.parsed.value))
    else if i < Retries - 1 then
      FetchFrom(net1.(slept := net1.slept + [FetchBackoff * (i + 1)]), endpoint, page, i + 1)
    else Outcome(net1, Err(FetchGiveUp(reply)))
  }

  /** The failures a listing read can throw: a rejected fetch, the last
      failed attempt of fetchWithRetry, a failed legacy listing, a body that
      is not JSON, or a page without pagination metadata. */
  predicate ListingFailure(f: Failure) {
    f.NetworkError? || f.HttpFailure? || f.NotJson? || f.LegacyFetchFailed? || f.BodyNotJson? || f.NoPagination?
  }

  /** fetchWithRetry throws only a rejected fetch or the failure of its
      last attempt: a non-ok status or a body that is not JSON. */
  lemma {:induction false} FetchFailure(net: Net, endpoint: string, page: int, i: nat)
    requires i < Retries
    decreases Retries - i
    ensures var r := FetchFrom(net, endpoint, page, i);
      r.result.Err? ==> r.result.failure.NetworkError? || r.result.failure.HttpFailure? || r.result.failure.NotJson?
  {
    var reply := ReplyAt(net.targetPages, 0);
    var net1 := net.(targetPages := Drop(net.targetPages, 1), sent := net.sent + [ListTarget(endpoint, page)]);
    if reply.Answer? && FetchRetryable(reply) && i < Retries - 1 {
      FetchFailure(net1.(slept := net1.slept + [FetchBackoff * (i + 1)]), endpoint, page, i + 1);
    }
  }

  /** fetchWithRetry for one page of the target store: at most three
      requests, a pause of 2000·(i+1) ms after a failed attempt i < 2. */
  method FetchWithRetry(net: Net, endpoint: string, page: int) returns (r: Outcome<PageBody>)
    ensures r == FetchFrom(net, endpoint, page, 0)
  {
    var cur := net;
    var i := 0;
    while i < Retries
      invariant i < Retries
      invariant FetchFrom(cur, endpoint, page, i) == FetchFrom(net, endpoint, page, 0)
      decreases Retries - i
    {
      var reply := ReplyAt(cur.targetPages, 0);
      cur := cur.(targetPages := Drop(cur.targetPages, 1), sent := cur.sent + [ListTarget(endpoint, page)]);
      if reply.Refused? {
        return Outcome(cur, Err(NetworkError));
      }
      if !reply.ok {
        if i < Retries - 1 {
          cur := cur.(slept := cur.slept + [FetchBackoff * (i + 1)]);
          i := i + 1;
          continue;
        }
        return Outcome(cur, Err(HttpFailure(reply.status, Text.Truncate(reply.body))));
      }
      if reply.parsed.Some? {
        return Outcome(cur, Ok(reply.parsed.value));
      }
      if i < Retries - 1 {
        cur := cur.(slept := cur.slept + [FetchBackoff * (i + 1)]);
        i := i + 1;
        continue;
      }
      return Outcome(cur, Err(NotJson(Text.Truncate(reply.body))));
    }
    assert false;
  }

  /** The whole behaviour of fetchWithRetry from attempt `i`: it makes `k`
      requests, 1 <= k <= 3 - i, all for the same page, taking `k` replies;
      all but the last were failed attempts and each was followed by its
      pause; the last decides: a rejection propagates, a JSON body is
      returned, and a failed third attempt throws with the body truncated. */
  lemma {:induction false} FetchWithRetrySpec(net: Net, endpoint: string, page: int, i: nat)
    requires i < Retries
    decreases Retries - i
    ensures FetchRun(net, FetchFrom(net, endpoint, page, i), endpoint, page, i)
  {
    var q := net.targetPages;
    var reply := ReplyAt(q, 0);
    if reply.Refused? || !FetchRetryable(reply) || i == Retries - 1 {
      FetchStops(net, endpoint, page, i);
    } else {
      var net2 := net.(targetPages := Drop(q, 1), sent := net.sent + [ListTarget(endpoint, page)],
                       slept := net.slept + [FetchBackoff * (i + 1)]);
      var r := FetchFrom(net2, endpoint, page, i + 1);
      assert r == FetchFrom(net, endpoint, page, i);
      FetchWithRetrySpec(net2, endpoint, page, i + 1);
      FetchRetryJoin(net, net2, r, endpoint, page, i);
    }
  }

  /** From `net`, attempts `i` on of fetchWithRetry ended in `r`: `k`
      requests for the page, each attempt but the last retried, the pauses
      of the retries, `k` replies taken, and the result the last reply
      decides. */
  predicate FetchRun(net: Net, r: Outcome<PageBody>, endpoint: string, page: int, i: nat) {
    var k := |r.net.sent| - |net.sent|;
    var q := net.targetPages;
    1 <= k <= Retries - i
    && var last := ReplyAt(q, k - 1);
    r.net.sent == net.sent + Repeat(ListTarget(endpoint, page), k)
    && r.net.slept == net.slept + Backoff(FetchBackoff, i, i + k - 1)
    && r.net.targetPages == Drop(q, k)
    && (forall j :: 0 <= j < k - 1 ==> FetchRetryable(ReplyAt(q, j)))
    && (last.Refused? ==> r.result == Err(NetworkError))
    && (last.Answer? && !FetchRetryable(last) ==> r.result == Ok(last.parsed.value))
    && (FetchRetryable(last) ==> k == Retries - i && r.result == Err(FetchGiveUp(last)))
  }

  /** An attempt that is not retried is the last one. */
  lemma FetchStops(net: Net, endpoint: string, page: int, i: nat)
    requires i < Retries
    requires var reply := ReplyAt(net.targetPages, 0); reply.Refused? || !FetchRetryable(reply) || i == Retries - 1
    ensures FetchRun(net, FetchFrom(net, endpoint, page, i), endpoint, page, i)
  {
    assert Repeat(ListTarget(endpoint, page), 1) == [ListTarget(endpoint, page)];
  }

  /** A retried first attempt, then the run of the later attempts. */
  lemma FetchRetryJoin(net: Net, net2: Net, r: Outcome<PageBody>, endpoint: string, page: int, i: nat)
    requires i + 1 < Retries && FetchRetryable(ReplyAt(net.targetPages, 0))
    requires net2 == net.(targetPages := Drop(net.targetPages, 1), sent := net.sent + [ListTarget(endpoint, page)],
                          slept := net.slept + [FetchBackoff * (i + 1)])
    requires FetchRun(net2, r, endpoint, page, i + 1)
    ensures FetchRun(net, r, endpoint, page, i)
  {
    var q := net.targetPages;
    var k := |r.net.sent| - |net2.sent|;
    assert r.net.sent == net.sent + Repeat(ListTarget(endpoint, page), k + 1);
    assert r.net.slept == net.slept + Backoff(FetchBackoff, i, i + k);
    assert Drop(net2.targetPages, k) == Drop(q, k + 1);
    forall j | 0 <= j < k + 1 - 1 ensures FetchRetryable(ReplyAt(q, j)) {
      if j > 0 {
        assert ReplyAt(q, j) == ReplyAt(net2.targetPages, j - 1);
      }
    }
    assert ReplyAt(q, k) == ReplyAt(net2.targetPages, k - 1);
  }


  /** The requests fetchWithRetry sends: one or more, all for its page. */
  lemma FetchRequests(net: Net, endpoint: string, page: int)
    ensures var r := FetchFrom(net, endpoint, page, 0);
      |net.sent| < |r.net.sent|
      && forall j :: |net.sent| <= j < |r.net.sent| ==> r.net.sent[j] == ListTarget(endpoint, page)
  {
    FetchWithRetrySpec(net, endpoint, page, 0);
  }

  /** A non-ok status and a non-JSON body are the same to fetchWithRetry
      before its last attempt: either way it pauses and tries again, so
      what follows is identical. */
  lemma FetchFailuresAlike(net: Net, endpoint: string, page: int, i: nat, a: Reply<PageBody>, b: Reply<PageBody>)
    requires i < Retries - 1
    requires FetchRetryable(a) && FetchRetryable(b)
    ensures FetchFrom(net.(targetPages := [a] + net.targetPages), endpoint, page, i)
         == FetchFrom(net.(targetPages := [b] + net.targetPages), endpoint, page, i)
  {
    assert Drop([a] + net.targetPages, 1) == net.targetPages == Drop([b] + net.targetPages, 1);
  }

  // ---- uploadToStrapi ----

  /** The first element of the upload response, `result[0]`. */
  function FirstAsset(assets: seq<AssetId>): (r: Option<AssetId>)
    ensures r.Some? <==> |assets| > 0
    ensures r.Some? ==> r.value == assets[0]
  {
    if |assets| > 0 then Some(assets[0]) else None
  }

  /** The upload loop from attempt `attempt` on. Only a non-ok status is
      retried; a body that is not JSON throws at once. */
  function UploadFrom(net: Net, fileName: string, mimeType: string, attempt: nat): (r: Outcome<Option<AssetId>>)
    requires attempt < Retries
    decreases Retries - attempt
    ensures Extends(net, r.net)
  {
    var reply := ReplyAt(net.uploads, 0);
    var net1 := net.(uploads := Drop(net.uploads, 1), sent := net.sent + [Upload(fileName, mimeType)]);
    if reply.Refused? then Outcome(net1, Err(NetworkError))
    else if !reply.ok then
      if attempt < Retries - 1 then
        UploadFrom(net1.(slept := net1.slept + [UploadBackoff * (attempt + 1)]), fileName, mimeType, attempt + 1)
      else Outcome(net1, Err(UploadFailed(fileName, reply.status, Text.Truncate(reply.body))))
    else if reply.parsed.None? then Outcome(net1, Err(BodyNotJson))
    else Outcome(net1, Ok(FirstAsset(reply.parsed.value)))
  }

  /** uploadToStrapi: in a dry run, the placeholder id and no request. */
  function UploadSpec(net: Net, dryRun: bool, fileName: string, mimeType: string): (r: Outcome<Option<AssetId>>)
    ensures dryRun ==> r == Outcome(net, Ok(Some(DryRunId)))
    ensures Extends(net, r.net)
  {
    if dryRun then Outcome(net, Ok(Some(DryRunId))) else UploadFrom(net, fileName, mimeType, 0)
  }

  method UploadToStrapi(net: Net, dryRun: bool, fileName: string, mimeType: string) returns (r: Outcome<Option<AssetId>>)
    ensures r == UploadSpec(net, dryRun, fileName, mimeType)
  {
    if dryRun {
      return Outcome(net, Ok(Some(DryRunId)));
    }
    var cur := net;
    var attempt := 0;
    while attempt < Retries
      invariant attempt < Retries
      invariant UploadFrom(cur, fileName, mimeType, attempt) == UploadFrom(net, fileName, mimeType, 0)
      decreases Retries - attempt
    {
      var reply := ReplyAt(cur.uploads, 0);
      cur := cur.(uploads := Drop(cur.uploads, 1), sent := cur.sent + [Upload(fileName, mimeType)]);
      if reply.Refused? {
        return Outcome(cur, Err(NetworkError));
      }
      if !reply.ok {
        if attempt < Retries - 1 {
          cur := cur.(slept := cur.slept + [UploadBackoff * (attempt + 1)]);
          attempt := attempt + 1;
          continue;
        }
        return Outcome(cur, Err(UploadFailed(fileName, reply.status, Text.Truncate(reply.body))));
      }
      if reply.parsed.None? {
        return Outcome(cur, Err(BodyNotJson));
      }
      return Outcome(cur, Ok(FirstAsset(reply.parsed.value)));
    }
    assert false;
  }

  /** The requests of an upload run: one to three uploads of the file. */
  lemma UploadFromSent(net: Net, fileName: string, mimeType: string, attempt: nat)
    requires attempt < Retries
    ensures var r := UploadFrom(net, fileName, mimeType, attempt);
      var k := |r.net.sent| - |net.sent|;
      1 <= k <= Retries - attempt && r.net.sent == net.sent + Repeat(Upload(fileName, mimeType), k)
  {
    UploadToStrapiSpec(net, fileName, mimeType, attempt);
  }

  /** The whole behaviour of the upload loop from attempt `attempt`: it makes
      `k` upload requests for the same file, 1 <= k <= 3 - attempt; all but
      the last got a non-ok status and were followed by a pause of
      3000·(attempt+1) ms; the last decides the result. */
  lemma {:induction false} UploadToStrapiSpec(net: Net, fileName: string, mimeType: string, attempt: nat)
    requires attempt < Retries
    decreases Retries - attempt
    ensures UploadRun(net, UploadFrom(net, fileName, mimeType, attempt), fileName, mimeType, attempt)
  {
    var q := net.uploads;
    var reply := ReplyAt(q, 0);
    if reply.Refused? || reply.ok || attempt == Retries - 1 {
      UploadStops(net, fileName, mimeType, attempt);
    } else {
      var net2 := net.(uploads := Drop(q, 1), sent := net.sent + [Upload(fileName, mimeType)],
                       slept := net.slept + [UploadBackoff * (attempt + 1)]);
      var r := UploadFrom(net2, fileName, mimeType, attempt + 1);
      assert r == UploadFrom(net, fileName, mimeType, attempt);
      UploadToStrapiSpec(net2, fileName, mimeType, attempt + 1);
      UploadRetryJoin(net, net2, r, fileName, mimeType, attempt);
    }
  }

  /** From `net`, attempts `attempt` on of uploadToStrapi ended in `r`: `k`
      uploads of the file, each attempt but the last answered and not ok,
      the pauses of the retries, `k` replies taken, and the result the last
      reply decides. */
  predicate UploadRun(net: Net, r: Outcome<Option<AssetId>>, fileName: string, mimeType: string, attempt: nat) {
    var k := |r.net.sent| - |net.sent|;
    var q := net.uploads;
    1 <= k <= Retries - attempt
    && var last := ReplyAt(q, k - 1);
    r.net.sent == net.sent + Repeat(Upload(fileName, mimeType), k)
    && r.net.slept == net.slept + Backoff(UploadBackoff, attempt, attempt + k - 1)
    && r.net.uploads == Drop(q, k)
    && (forall j :: 0 <= j < k - 1 ==> ReplyAt(q, j).Answer? && !ReplyAt(q, j).ok)
    && (last.Refused? ==> r.result == Err(NetworkError))
    && (last.Answer? && last.ok ==>
          r.result == if last.parsed.None? then Err(BodyNotJson) else Ok(FirstAsset(last.parsed.value)))
    && (last.Answer? && !last.ok ==>
          k == Retries - attempt && r.result == Err(UploadFailed(fileName, last.status, Text.Truncate(last.body))))
  }

  /** An attempt that is not retried is the last one. */
  lemma UploadStops(net: Net, fileName: string, mimeType: string, attempt: nat)
    requires attempt < Retries
    requires var reply := ReplyAt(net.uploads, 0); reply.Refused? || reply.ok || attempt == Retries - 1
    ensures UploadRun(net, UploadFrom(net, fileName, mimeType, attempt), fileName, mimeType, attempt)
  {
    assert Repeat(Upload(fileName, mimeType), 1) == [Upload(fileName, mimeType)];
  }

  /** A retried first attempt, then the run of the later attempts. */
  lemma UploadRetryJoin(net: Net, net2: Net, r: Outcome<Option<AssetId>>, fileName: string, mimeType: string, attempt: nat)
    requires attempt + 1 < Retries
    requires ReplyAt(net.uploads, 0).Answer? && !ReplyAt(net.uploads, 0).ok
    requires net2 == net.(uploads := Drop(net.uploads, 1), sent := net.sent + [Upload(fileName, mimeType)],
                          slept := net.slept + [UploadBackoff * (attempt + 1)])
    requires UploadRun(net2, r, fileName, mimeType, attempt + 1)
    ensures UploadRun(net, r, fileName, mimeType, attempt)
  {
    var q := net.uploads;
    var k := |r.net.sent| - |net2.sent|;
    assert r.net.sent == net.sent + Repeat(Upload(fileName, mimeType), k + 1);
    assert r.net.slept == net.slept + Backoff(UploadBackoff, attempt, attempt + k);
    assert Drop(net2.uploads, k) == Drop(q, k + 1);
    forall j | 0 <= j < k + 1 - 1 ensures ReplyAt(q, j).Answer? && !ReplyAt(q, j).ok {
      if j > 0 {
        assert ReplyAt(q, j) == ReplyAt(net2.uploads, j - 1);
      }
    }
    assert ReplyAt(q, k) == ReplyAt(net2.uploads, k - 1);
  }


  /** The assets handed out by a run of upload replies, in order: the
      first element of every ok JSON reply with a non-empty array. */
  function UploadedAssets(q: seq<Reply<seq<AssetId>>>): seq<AssetId> {
    if q == [] then []
    else
      var a := q[0];
      (if a.Answer? && a.ok && a.parsed.Some? && |a.parsed.value| > 0 then [a.parsed.value[0]] else [])
      + UploadedAssets(q[1..])
  }

  lemma {:induction false} UploadedAssetsAppend(a: seq<Reply<seq<AssetId>>>, b: seq<Reply<seq<AssetId>>>)
    ensures UploadedAssets(a + b) == UploadedAssets(a) + UploadedAssets(b)
  {
    if a == [] {
      assert a + b == b;
    } else {
      assert (a + b)[0] == a[0] && (a + b)[1..] == a[1..] + b;
      UploadedAssetsAppend(a[1..], b);
    }
  }

  /** Two consecutive takes of upload replies, as one. */
  lemma UploadedAssetsJoin(q: seq<Reply<seq<AssetId>>>, k: nat, c: nat)
    requires k + c <= |q|
    ensures q[k..][c..] == q[k + c..]
    ensures UploadedAssets(q[..k + c]) == UploadedAssets(q[..k]) + UploadedAssets(q[k..][..c])
  {
    assert q[..k + c] == q[..k] + q[k..][..c];
    UploadedAssetsAppend(q[..k], q[k..][..c]);
  }

  /** The upload loop takes the first `c` upload replies, and the asset it
      returns is the only one among them: a retried, rejected or
      non-JSON reply, or an empty array, hands out none. */
  lemma {:induction false} UploadAssets(net: Net, fileName: string, mimeType: string, attempt: nat)
    requires attempt < Retries
    decreases Retries - attempt
    ensures var r := UploadFrom(net, fileName, mimeType, attempt);
      var q := net.uploads;
      var c := |q| - |r.net.uploads|;
      0 <= c <= |q| && r.net.uploads == q[c..]
      && UploadedAssets(q[..c]) == if r.result.Ok? && r.result.value.Some? then [r.result.value.value] else []
  {
    var q := net.uploads;
    var r := UploadFrom(net, fileName, mimeType, attempt);
    if q == [] {
      assert r.net.uploads == [] && q[..0] == [];
    } else if q[0].Answer? && !q[0].ok && attempt < Retries - 1 {
      var net2 := net.(uploads := q[1..], sent := net.sent + [Upload(fileName, mimeType)],
                       slept := net.slept + [UploadBackoff * (attempt + 1)]);
      assert r == UploadFrom(net2, fileName, mimeType, attempt + 1);
      UploadAssets(net2, fileName, mimeType, attempt + 1);
      var c2 := |q[1..]| - |r.net.uploads|;
      UploadedAssetsSkip(q, c2);
    } else {
      assert r.net.uploads == q[1..];
      UploadedAssetsOne(q);
    }
  }

  /** The first reply alone. */
  lemma UploadedAssetsOne(q: seq<Reply<seq<AssetId>>>)
    requires q != []
    ensures var a := q[0];
      UploadedAssets(q[..1]) == if a.Answer? && a.ok && a.parsed.Some? && |a.parsed.value| > 0 then [a.parsed.value[0]] else []
  {
    assert q[..1][1..] == [];
  }

  /** A first reply with a non-ok status hands out nothing. */
  lemma UploadedAssetsSkip(q: seq<Reply<seq<AssetId>>>, c: nat)
    requires q != [] && q[0].Answer? && !q[0].ok && c <= |q| - 1
    ensures q[1..][c..] == q[1 + c..]
    ensures UploadedAssets(q[..1 + c]) == UploadedAssets(q[1..][..c])
  {
    assert q[..1 + c][1..] == q[1..][..c];
  }

  /** Replies with a non-ok status hand out no asset. */
  lemma {:induction false} NoAssetsRetried(q: seq<Reply<seq<AssetId>>>)
    requires forall j :: 0 <= j < |q| ==> q[j].Answer? && !q[j].ok
    ensures UploadedAssets(q) == []
  {
    if q != [] {
      NoAssetsRetried(q[1..]);
    }
  }

  /** The scenario of two HTTP 503 answers and then a success: three upload
      requests, pauses of 3 s and 6 s, and the asset of the third answer. */
  lemma UploadSucceedsThirdTime(net: Net, fileName: string, mimeType: string, body: string, id: AssetId)
    requires |net.uploads| >= 3
    requires net.uploads[0] == Answer(false, 503, body, None) && net.uploads[1] == Answer(false, 503, body, None)
    requires net.uploads[2] == Answer(true, 201, body, Some([id]))
    ensures var r := UploadSpec(net, false, fileName, mimeType);
      r.result == Ok(Some(id))
      && r.net.slept == net.slept + [3000, 6000]
      && r.net.sent == net.sent + [Upload(fileName, mimeType), Upload(fileName, mimeType), Upload(fileName, mimeType)]
  {
    var u := Upload(fileName, mimeType);
    var n1 := net.(uploads := Drop(net.uploads, 1), sent := net.sent + [u]);
    var n2 := n1.(slept := n1.slept + [3000]);
    var n3 := n2.(uploads := Drop(n2.uploads, 1), sent := n2.sent + [u]);
    var n4 := n3.(slept := n3.slept + [6000]);
    assert UploadFrom(net, fileName, mimeType, 0) == UploadFrom(n2, fileName, mimeType, 1);
    assert UploadFrom(n2, fileName, mimeType, 1) == UploadFrom(n4, fileName, mimeType, 2);
    assert ReplyAt(n4.uploads, 0) == net.uploads[2];
    assert n4.sent == net.sent + [u, u];
    assert n4.slept == net.slept + [3000, 6000];
  }

  // ---- Single-attempt calls ----

  /** downloadFile: one request, no retry. */
  function DownloadSpec(net: Net, url: string): (r: Outcome<()>)
    ensures r.net.sent == net.sent + [Download(url)] && r.net.slept == net.slept
    ensures r.net.downloads == Drop(net.downloads, 1)
    ensures r.result.Ok? <==> ReplyAt(net.downloads, 0).Answer? && ReplyAt(net.downloads, 0).ok
  {
    var reply := ReplyAt(net.downloads, 0);
    var net1 := net.(downloads := Drop(net.downloads, 1), sent := net.sent + [Download(url)]);
    if reply.Refused? then Outcome(net1, Err(NetworkError))
    else if !reply.ok then Outcome(net1, Err(DownloadFailed(url, reply.status)))
    else Outcome(net1, Ok(()))
  }

  /** fetchV3: one request for the whole legacy listing, no retry. */
  function FetchLegacySpec(net: Net, endpoint: string): (r: Outcome<seq<LegacyEntry>>)
    ensures r.net.sent == net.sent + [ListLegacy(endpoint)] && r.net.slept == net.slept
    ensures var a := ReplyAt(net.legacyLists, 0);
      r.result.Ok? <==> a.Answer? && a.ok && a.parsed.Some?
    ensures r.result.Ok? ==> r.result.value == ReplyAt(net.legacyLists, 0).parsed.value
  {
    var reply := ReplyAt(net.legacyLists, 0);
    var net1 := net.(legacyLists := Drop(net.legacyLists, 1), sent := net.sent + [ListLegacy(endpoint)]);
    if reply.Refused? then Outcome(net1, Err(NetworkError))
    else if !reply.ok then Outcome(net1, Err(LegacyFetchFailed(endpoint, reply.status)))
    else if reply.parsed.None? then Outcome(net1, Err(BodyNotJson))
    else Outcome(net1, Ok(reply.parsed.value))
  }

  /** updateEntry: in a dry run, no request; otherwise one PUT carrying the
      patch, failing on a non-ok status (with the full body) or a body that
      is not JSON. */
  function UpdateSpec(net: Net, dryRun: bool, endpoint: string, documentId: string, patch: Patch): (r: Outcome<()>)
    ensures dryRun ==> r == Outcome(net, Ok(()))
    ensures !dryRun ==> r.net.sent == net.sent + [Put(endpoint, documentId, patch)] && r.net.slept == net.slept
    ensures !dryRun ==> (r.result.Ok? <==> var a := ReplyAt(net.updates, 0); a.Answer? && a.ok && a.parsed.Some?)
    ensures Extends(net, r.net)
  {
    if dryRun then Outcome(net, Ok(()))
    else
      var reply := ReplyAt(net.updates, 0);
      var net1 := net.(updates := Drop(net.updates, 1), sent := net.sent + [Put(endpoint, documentId, patch)]);
      if reply.Refused? then Outcome(net1, Err(NetworkError))
      else if !reply.ok then Outcome(net1, Err(UpdateFailed(endpoint, documentId, reply.status, reply.body)))
      else if reply.parsed.None? then Outcome(net1, Err(BodyNotJson))
      else Outcome(net1, Ok(()))
  }
}
