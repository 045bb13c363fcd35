/**
 * fetchV5AllPages: the target store's listing, page by page, accumulated
 * into one sequence.
 */
module Pagination {
  import opened Wrappers
  import opened Content
  import opened Network

  /** The pages from `page` on, with `all` accumulated so far. A page whose
      `data` is falsy ends the listing and is not added; otherwise its data
      is appended, and the listing ends once `page >= pageCount`. A missing
      `meta.pagination` throws; a missing page count never ends the loop
      (`page >= undefined` is false). A failed fetch throws. */
  function PagesFrom(net: Net, endpoint: string, page: int, all: seq<TargetEntry>): (r: Outcome<seq<TargetEntry>>)
    decreases |net.targetPages|
    ensures Extends(net, r.net)
    ensures r.result.Ok? ==> all <= r.result.value
  {
    var f := FetchFrom(net, endpoint, page, 0);
    if f.result.Err? then Outcome(f.net, Err(f.result.failure))
    else
      var json := f.result.value;
      if json.data.None? then Outcome(f.net, Ok(all))
      else
        var all' := all + json.data.value;
        match json.meta
        case MetaMissing => Outcome(f.net, Err(NoPagination))
        case PageCountMissing => PagesFrom(f.net, endpoint, page + 1, all')
        case PageCount(n) =>
          if page >= n then Outcome(f.net, Ok(all')) else PagesFrom(f.net, endpoint, page + 1, all')
  }

  method FetchV5AllPages(net: Net, endpoint: string) returns (r: Outcome<seq<TargetEntry>>)
    ensures r == PagesFrom(net, endpoint, 1, [])
  {
    var page := 1;
    var all: seq<TargetEntry> := [];
    var cur := net;
    while true
      invariant PagesFrom(cur, endpoint, page, all) == PagesFrom(net, endpoint, 1, [])
      decreases |cur.targetPages|
    {
      var f := FetchWithRetry(cur, endpoint, page);
      if f.result.Err? {
        return Outcome(f.net, Err(f.result.failure));
      }
      var json := f.result.value;
      if json.data.None? {
        return Outcome(f.net, Ok(all));
      }
      all := all + json.data.value;
      if json.meta.MetaMissing? {
        return Outcome(f.net, Err(NoPagination));
      }
      if json.meta.PageCount? && page >= json.meta.count {
        return Outcome(f.net, Ok(all));
      }
      page := page + 1;
      cur := f.net;
    }
  }

  function Flatten<T>(ds: seq<seq<T>>): seq<T> {
    if ds == [] then [] else ds[0] + Flatten(ds[1..])
  }

  /** The requests for pages `lo` .. `hi - 1`, one each. */
  function PageRequests(endpoint: string, lo: int, hi: int): (s: seq<Request>)
    requires lo <= hi
    ensures |s| == hi - lo && forall j :: 0 <= j < hi - lo ==> s[j] == ListTarget(endpoint, lo + j)
  {
    seq(hi - lo, j => ListTarget(endpoint, lo + j))
  }

  /** A reply a first attempt accepts: page data and a page count. */
  predicate GoodPage(r: Reply<PageBody>, data: seq<TargetEntry>, count: int) {
    r.Answer? && r.ok && r.parsed == Some(PageBody(Some(data), PageCount(count)))
  }

  /** From `net`, the listing from `page` with `all` accumulated ended in
      `r`: its result is `all` followed by the pages' data `ds` in page
      order, one request per page up to `count`, in page order, no pause,
      and `|ds|` page replies taken. */
  predicate Answered(net: Net, r: Outcome<seq<TargetEntry>>, endpoint: string, page: int,
                     all: seq<TargetEntry>, ds: seq<seq<TargetEntry>>, count: int)
    requires page <= count + 1 && |ds| <= |net.targetPages|
  {
    r.result == Ok(all + Flatten(ds))
    && r.net.sent == net.sent + PageRequests(endpoint, page, count + 1)
    && r.net.slept == net.slept
    && r.net.targetPages == net.targetPages[|ds|..]
  }

  /** When every page from `page` to `count` answers at once, the listing is
      their data concatenated in page order, one request per page, in page
      order, and no pause. */
  lemma {:induction false} AllPagesAnswered(net: Net, endpoint: string, page: int, all: seq<TargetEntry>,
                                            ds: seq<seq<TargetEntry>>, count: int)
    requires 1 <= page <= count && |ds| == count - page + 1 && |ds| <= |net.targetPages|
    requires forall k :: 0 <= k < |ds| ==> GoodPage(net.targetPages[k], ds[k], count)
    decreases |ds|
    ensures Answered(net, PagesFrom(net, endpoint, page, all), endpoint, page, all, ds, count)
  {
    FirstPageGood(net, endpoint, page, ds[0], count);
    var f := FetchFrom(net, endpoint, page, 0);
    if page == count {
      LastPageAnswered(net, f, PagesFrom(net, endpoint, page, all), endpoint, page, all, ds, count);
    } else {
      var net1 := f.net;
      var r := PagesFrom(net1, endpoint, page + 1, all + ds[0]);
      assert r == PagesFrom(net, endpoint, page, all);
      forall k | 0 <= k < |ds[1..]| ensures GoodPage(net1.targetPages[k], ds[1..][k], count) {
        assert net1.targetPages[k] == net.targetPages[k + 1];
      }
      AllPagesAnswered(net1, endpoint, page + 1, all + ds[0], ds[1..], count);
      AnsweredJoin(net, net1, r, endpoint, page, all, ds, count);
    }
  }

  /** The last page, answered at once. */
  lemma LastPageAnswered(net: Net, f: Outcome<PageBody>, r: Outcome<seq<TargetEntry>>, endpoint: string, page: int,
                         all: seq<TargetEntry>, ds: seq<seq<TargetEntry>>, count: int)
    requires page == count && |ds| == 1 && |ds| <= |net.targetPages|
    requires f.net.targetPages == net.targetPages[1..]
      && f.net.sent == net.sent + [ListTarget(endpoint, page)] && f.net.slept == net.slept
    requires r == Outcome(f.net, Ok(all + ds[0]))
    ensures Answered(net, r, endpoint, page, all, ds, count)
  {
    assert ds[1..] == [];
    assert Flatten(ds) == ds[0] + Flatten(ds[1..]) == ds[0];
    assert PageRequests(endpoint, page, count + 1) == [ListTarget(endpoint, page)];
  }

  /** The first page answered at once, then the rest. */
  lemma AnsweredJoin(net: Net, net1: Net, r: Outcome<seq<TargetEntry>>, endpoint: string, page: int,
                     all: seq<TargetEntry>, ds: seq<seq<TargetEntry>>, count: int)
    requires page < count && |ds| == count - page + 1 && |ds| <= |net.targetPages|
    requires net1.targetPages == net.targetPages[1..]
      && net1.sent == net.sent + [ListTarget(endpoint, page)] && net1.slept == net.slept
    requires Answered(net1, r, endpoint, page + 1, all + ds[0], ds[1..], count)
    ensures Answered(net, r, endpoint, page, all, ds, count)
  {
    assert all + ds[0] + Flatten(ds[1..]) == all + Flatten(ds);
    assert [ListTarget(endpoint, page)] + PageRequests(endpoint, page + 1, count + 1)
        == PageRequests(endpoint, page, count + 1);
    assert net1.targetPages[|ds| - 1..] == net.targetPages[|ds|..];
  }

  /** A first attempt that gets a good page takes that one reply, sends one
      request and does not pause. */
  lemma FirstPageGood(net: Net, endpoint: string, page: int, data: seq<TargetEntry>, count: int)
    requires |net.targetPages| > 0 && GoodPage(net.targetPages[0], data, count)
    ensures var f := FetchFrom(net, endpoint, page, 0);
      f.result == Ok(PageBody(Some(data), PageCount(count)))
      && f.net.targetPages == net.targetPages[1..]
      && f.net.sent == net.sent + [ListTarget(endpoint, page)] && f.net.slept == net.slept
  {
  }

  /** A page whose data is falsy ends the listing without being added. */
  lemma StopsWithoutData(net: Net, endpoint: string, page: int, all: seq<TargetEntry>, meta: Meta)
    requires |net.targetPages| > 0
    requires net.targetPages[0].Answer? && net.targetPages[0].ok
    requires net.targetPages[0].parsed == Some(PageBody(None, meta))
    ensures PagesFrom(net, endpoint, page, all).result == Ok(all)
  {
  }

  /** The requests of a listing, from page `page` on: all for the same
      endpoint, the first for `page`, each for the page of the one before or
      the next page (retries repeat a page). */
  predicate PagesInOrder(s: seq<Request>, endpoint: string, page: int) {
    (forall k :: 0 <= k < |s| ==> s[k].ListTarget? && s[k].endpoint == endpoint)
    && (|s| > 0 ==> s[0].page == page)
    && (forall k :: 0 < k < |s| ==> s[k - 1].page <= s[k].page <= s[k - 1].page + 1)
  }

  lemma InOrderPrepend(first: seq<Request>, rest: seq<Request>, endpoint: string, page: int)
    requires |first| > 0 && forall j :: 0 <= j < |first| ==> first[j] == ListTarget(endpoint, page)
    requires PagesInOrder(rest, endpoint, page + 1)
    ensures PagesInOrder(first + rest, endpoint, page)
  {
    var s := first + rest;
    var k := |first|;
    forall j | 0 < j < |s|
      ensures s[j - 1].page <= s[j].page <= s[j - 1].page + 1
    {
      if j == k {
        assert s[j] == rest[0];
      } else if j > k {
        assert s[j] == rest[j - k] && s[j - 1] == rest[j - k - 1];
      }
    }
  }

  /** fetchV5AllPages requests pages `page`, `page + 1`, ... in order. */
  lemma {:induction false} PagesRequestedInOrder(net: Net, endpoint: string, page: int, all: seq<TargetEntry>)
    decreases |net.targetPages|
    ensures var r := PagesFrom(net, endpoint, page, all);
      PagesInOrder(r.net.sent[|net.sent|..], endpoint, page)
  {
    var f := FetchFrom(net, endpoint, page, 0);
    var first := f.net.sent[|net.sent|..];
    assert |first| > 0 && forall j :: 0 <= j < |first| ==> first[j] == ListTarget(endpoint, page) by {
      FetchRequests(net, endpoint, page);
    }
    var r := PagesFrom(net, endpoint, page, all);
    if f.result.Ok? && f.result.value.data.Some? && !f.result.value.meta.MetaMissing?
       && !(f.result.value.meta.PageCount? && page >= f.result.value.meta.count) {
      var all' := all + f.result.value.data.value;
      assert r == PagesFrom(f.net, endpoint, page + 1, all');
      var rest := r.net.sent[|f.net.sent|..];
      assert PagesInOrder(rest, endpoint, page + 1) by {
        PagesRequestedInOrder(f.net, endpoint, page + 1, all');
      }
      assert r.net.sent[|net.sent|..] == first + rest by {
        SentBetween(net.sent, f.net.sent, r.net.sent);
      }
      InOrderPrepend(first, rest, endpoint, page);
    } else {
      assert r.net == f.net;
    }
  }

  /** A reply that an attempt of fetchWithRetry accepts, with truthy `data`. */
  predicate Accepts(r: Reply<PageBody>) {
    r.Answer? && r.ok && r.parsed.Some? && r.parsed.value.data.Some?
  }

  /** The data of the accepted pages among `q`, in order: the replies
      fetchWithRetry retried and the pages without data add nothing. */
  function AcceptedData(q: seq<Reply<PageBody>>): seq<TargetEntry> {
    if q == [] then [] else (if Accepts(q[0]) then q[0].parsed.value.data.value else []) + AcceptedData(q[1..])
  }

  lemma {:induction false} AcceptedDataAppend(a: seq<Reply<PageBody>>, b: seq<Reply<PageBody>>)
    ensures AcceptedData(a + b) == AcceptedData(a) + AcceptedData(b)
  {
    if a == [] {
      assert a + b == b;
    } else {
      assert (a + b)[0] == a[0] && (a + b)[1..] == a[1..] + b;
      AcceptedDataAppend(a[1..], b);
    }
  }

  /** Retried replies contribute no data. */
  lemma {:induction false} AcceptedDataRetried(q: seq<Reply<PageBody>>)
    requires forall j :: 0 <= j < |q| ==> FetchRetryable(q[j])
    ensures AcceptedData(q) == []
  {
    if q != [] {
      assert !Accepts(q[0]);
      AcceptedDataRetried(q[1..]);
    }
  }

  /** One successful fetchWithRetry takes the first `k` page replies, and
      of those only the last is accepted: their data is its data. */
  lemma FetchAccepted(net: Net, endpoint: string, page: int)
    ensures var f := FetchFrom(net, endpoint, page, 0);
      var q := net.targetPages;
      var k := |q| - |f.net.targetPages|;
      f.result.Ok? ==>
        1 <= k <= |q| && f.net.targetPages == q[k..]
        && AcceptedData(q[..k]) == if f.result.value.data.Some? then f.result.value.data.value else []
  {
    var q := net.targetPages;
    var f := FetchFrom(net, endpoint, page, 0);
    FetchWithRetrySpec(net, endpoint, page, 0);
    if f.result.Ok? {
      var k := |f.net.sent| - |net.sent|;
      var last := ReplyAt(q, k - 1);
      assert last.Answer? && !FetchRetryable(last);
      assert k <= |q|;
      assert f.net.targetPages == q[k..];
      assert q[..k] == q[..k - 1] + [q[k - 1]];
      AcceptedDataRetried(q[..k - 1]);
      AcceptedDataAppend(q[..k - 1], [q[k - 1]]);
      assert [q[k - 1]][1..] == [];
    }
  }

  /** From page replies `q` a listing from `all` that succeeded with `r`
      took the first `c` replies, and its entries are `all` followed by the
      data of the accepted pages among them, in reply order. */
  predicate PagesTook(q: seq<Reply<PageBody>>, r: Outcome<seq<TargetEntry>>, all: seq<TargetEntry>) {
    var c := |q| - |r.net.targetPages|;
    r.result.Ok? ==>
      0 <= c <= |q| && r.net.targetPages == q[c..] && r.result.value == all + AcceptedData(q[..c])
  }

  /** What a successful listing holds, whatever was retried on the way. */
  lemma {:induction false} PagesData(net: Net, endpoint: string, page: int, all: seq<TargetEntry>)
    decreases |net.targetPages|, 1
    ensures PagesTook(net.targetPages, PagesFrom(net, endpoint, page, all), all)
  {
    var f := FetchFrom(net, endpoint, page, 0);
    if f.result.Ok? && f.result.value.data.Some? && f.result.value.meta != MetaMissing
       && !(f.result.value.meta.PageCount? && page >= f.result.value.meta.count) {
      PagesDataNext(net, endpoint, page, all);
    } else {
      PagesDataLast(net, endpoint, page, all);
    }
  }

  /** PagesData for a listing that goes on past its first page. */
  lemma {:induction false} PagesDataNext(net: Net, endpoint: string, page: int, all: seq<TargetEntry>)
    requires var f := FetchFrom(net, endpoint, page, 0);
      f.result.Ok? && f.result.value.data.Some? && f.result.value.meta != MetaMissing
      && !(f.result.value.meta.PageCount? && page >= f.result.value.meta.count)
    decreases |net.targetPages|, 0
    ensures PagesTook(net.targetPages, PagesFrom(net, endpoint, page, all), all)
  {
    var f := FetchFrom(net, endpoint, page, 0);
    var data := f.result.value.data.value;
    var r := PagesFrom(f.net, endpoint, page + 1, all + data);
    assert PagesFrom(net, endpoint, page, all) == r;
    FetchAccepted(net, endpoint, page);
    PagesData(f.net, endpoint, page + 1, all + data);
    PagesJoin(net.targetPages, f.net.targetPages, data, all, r);
  }

  /** Chaining the replies one page took with those the rest took. */
  lemma PagesJoin(q: seq<Reply<PageBody>>, q1: seq<Reply<PageBody>>, data: seq<TargetEntry>,
                  all: seq<TargetEntry>, r: Outcome<seq<TargetEntry>>)
    requires var k := |q| - |q1|; 1 <= k <= |q| && q1 == q[k..] && AcceptedData(q[..k]) == data
    requires PagesTook(q1, r, all + data)
    ensures PagesTook(q, r, all)
  {
    if r.result.Ok? {
      var k := |q| - |q1|;
      var c2 := |q1| - |r.net.targetPages|;
      AcceptedDataJoin(q, k, c2);
      ConcatAssoc(all, data, AcceptedData(q[k..][..c2]));
    }
  }

  lemma ConcatAssoc<T>(a: seq<T>, b: seq<T>, c: seq<T>)
    ensures (a + b) + c == a + (b + c)
  {
  }

  /** PagesData for a listing that ends, or fails, at its first page. */
  lemma PagesDataLast(net: Net, endpoint: string, page: int, all: seq<TargetEntry>)
    requires var f := FetchFrom(net, endpoint, page, 0);
      !(f.result.Ok? && f.result.value.data.Some? && f.result.value.meta != MetaMissing
        && !(f.result.value.meta.PageCount? && page >= f.result.value.meta.count))
    ensures PagesTook(net.targetPages, PagesFrom(net, endpoint, page, all), all)
  {
    var q := net.targetPages;
    var f := FetchFrom(net, endpoint, page, 0);
    var r := PagesFrom(net, endpoint, page, all);
    FetchAccepted(net, endpoint, page);
    if f.result.Ok? {
      var json := f.result.value;
      if json.data.None? {
        assert r == Outcome(f.net, Ok(all));
      } else if json.meta.MetaMissing? {
        assert r.result.Err?;
      } else {
        assert r == Outcome(f.net, Ok(all + json.data.value));
      }
    }
  }

  /** The replies taken by one page and by the pages after it, together. */
  lemma AcceptedDataJoin(q: seq<Reply<PageBody>>, k: nat, c2: nat)
    requires k + c2 <= |q|
    ensures q[k..][c2..] == q[k + c2..]
    ensures AcceptedData(q[..k + c2]) == AcceptedData(q[..k]) + AcceptedData(q[k..][..c2])
  {
    assert q[..k + c2] == q[..k] + q[k..][..c2];
    AcceptedDataAppend(q[..k], q[k..][..c2]);
  }

  /** Reading the listing only reads. */
  lemma PagesReadOnly(net: Net, endpoint: string, page: int, all: seq<TargetEntry>)
    ensures ReadOnly(net, PagesFrom(net, endpoint, page, all).net)
  {
    var r := PagesFrom(net, endpoint, page, all);
    var d := r.net.sent[|net.sent|..];
    PagesRequestedInOrder(net, endpoint, page, all);
    forall k | |net.sent| <= k < |r.net.sent| ensures !IsWrite(r.net.sent[k]) {
      assert r.net.sent[k] == d[k - |net.sent|];
    }
  }

  /** Reading the listing throws only listing failures. */
  lemma {:induction false} PagesFailure(net: Net, endpoint: string, page: int, all: seq<TargetEntry>)
    decreases |net.targetPages|
    ensures var r := PagesFrom(net, endpoint, page, all);
      r.result.Err? ==> ListingFailure(r.result.failure)
  {
    var f := FetchFrom(net, endpoint, page, 0);
    FetchFailure(net, endpoint, page, 0);
    if f.result.Ok? && f.result.value.data.Some? {
      var all' := all + f.result.value.data.value;
      PagesFailure(f.net, endpoint, page + 1, all');
    }
  }
}
