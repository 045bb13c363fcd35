/**
 * The lookups `v5BySlug` and `v5ByTitle`: target entries filed under a key
 * by plain assignment in listing order, so the last entry with a key wins.
 */
module Lookup {
  import opened Content
  import Text

  /** The dictionary after `lookup[key(e)] = e` for every entry, in order. */
  function LookupOf(entries: seq<TargetEntry>, key: TargetEntry -> string): map<string, TargetEntry> {
    if entries == [] then map[]
    else LookupOf(entries[..|entries| - 1], key)[key(entries[|entries| - 1]) := entries[|entries| - 1]]
  }

  /** Some entry carries key `k`. */
  predicate HasKey(entries: seq<TargetEntry>, key: TargetEntry -> string, k: string) {
    exists j :: 0 <= j < |entries| && key(entries[j]) == k
  }

  /** `e` is the last entry carrying key `k`. */
  predicate LastWithKey(entries: seq<TargetEntry>, key: TargetEntry -> string, k: string, e: TargetEntry) {
    exists j :: 0 <= j < |entries| && entries[j] == e && key(entries[j]) == k
      && forall j' :: j < j' < |entries| ==> key(entries[j']) != k
  }

  /** The keys of the lookup are the keys of the entries, and each maps to
      the last entry carrying it. */
  lemma LookupLastWins(entries: seq<TargetEntry>, key: TargetEntry -> string)
    ensures var m := LookupOf(entries, key);
      (forall k :: k in m <==> HasKey(entries, key, k))
      && (forall k :: k in m ==> LastWithKey(entries, key, k, m[k]))
  {
    LookupKeys(entries, key);
    LookupValues(entries, key);
  }

  lemma {:induction false} LookupKeys(entries: seq<TargetEntry>, key: TargetEntry -> string)
    ensures forall k :: k in LookupOf(entries, key) <==> HasKey(entries, key, k)
  {
    if entries != [] {
      var n := |entries| - 1;
      var init := entries[..n];
      LookupKeys(init, key);
      var m0 := LookupOf(init, key);
      var m := LookupOf(entries, key);
      assert m == m0[key(entries[n]) := entries[n]];
      forall k ensures k in m <==> HasKey(entries, key, k) {
        if k in m && k != key(entries[n]) {
          assert k in m0 && HasKey(init, key, k);
          var j :| 0 <= j < |init| && key(init[j]) == k;
          assert entries[j] == init[j];
        }
        if HasKey(entries, key, k) && k != key(entries[n]) {
          var j :| 0 <= j < |entries| && key(entries[j]) == k;
          assert init[j] == entries[j];
          assert HasKey(init, key, k);
        }
      }
    }
  }

  lemma {:induction false} LookupValues(entries: seq<TargetEntry>, key: TargetEntry -> string)
    ensures forall k :: k in LookupOf(entries, key) ==> LastWithKey(entries, key, k, LookupOf(entries, key)[k])
  {
    if entries != [] {
      var n := |entries| - 1;
      var init := entries[..n];
      LookupValues(init, key);
      var m0 := LookupOf(init, key);
      var m := LookupOf(entries, key);
      assert m == m0[key(entries[n]) := entries[n]];
      assert forall k :: k in m0 ==> LastWithKey(init, key, k, m0[k]);
      forall k | k in m ensures LastWithKey(entries, key, k, m[k]) {
        if k == key(entries[n]) {
          assert entries[n] == m[k] && key(entries[n]) == k;
        } else {
          assert k in m0 && m[k] == m0[k];
          assert LastWithKey(init, key, k, m0[k]);
          var j :| 0 <= j < |init| && init[j] == m0[k] && key(init[j]) == k
            && forall j' :: j < j' < |init| ==> key(init[j']) != k;
          assert entries[j] == init[j];
          forall j' | j < j' < |entries| ensures key(entries[j']) != k {
            if j' < n {
              assert entries[j'] == init[j'];
            }
          }
          assert entries[j] == m[k] && key(entries[j]) == k;
        }
      }
    }
  }

  /** The loop that fills the lookup; what it holds is LookupLastWins. */
  method BuildLookup(entries: seq<TargetEntry>, key: TargetEntry -> string) returns (m: map<string, TargetEntry>)
    ensures m == LookupOf(entries, key)
  {
    m := map[];
    for i := 0 to |entries|
      invariant m == LookupOf(entries[..i], key)
    {
      assert entries[..i + 1][..i] == entries[..i];
      m := m[key(entries[i]) := entries[i]];
    }
    assert entries[..|entries|] == entries;
  }

  /** Spectacles are filed under their slug. */
  function SlugKey(e: TargetEntry): string {
    e.slug
  }

  /** Podcasts are filed under their normalised title. */
  function TitleKey(e: TargetEntry): string {
    Text.Normalize(e.title)
  }

  /** `lookup[k]`: undefined when no entry carries `k`. */
  function Find(m: map<string, TargetEntry>, k: string): (r: Wrappers.Option<TargetEntry>)
    ensures r.Some? <==> k in m
    ensures r.Some? ==> r.value == m[k]
  {
    if k in m then Wrappers.Some(m[k]) else Wrappers.None
  }

  /** Spectacle matching is exact slug equality: a slug finds an entry iff
      some target entry has exactly that slug, and the entry found has it. */
  lemma SlugMatchIsExact(entries: seq<TargetEntry>, slug: string)
    ensures var r := Find(LookupOf(entries, SlugKey), slug);
      (r.Some? <==> exists j :: 0 <= j < |entries| && entries[j].slug == slug)
      && (r.Some? ==> r.value.slug == slug)
  {
    var key: TargetEntry -> string := SlugKey;
    var m := LookupOf(entries, key);
    assert slug in m <==> HasKey(entries, key, slug) by {
      LookupLastWins(entries, key);
    }
    if slug in m {
      assert LastWithKey(entries, key, slug, m[slug]) by {
        LookupLastWins(entries, key);
      }
    }
  }

  /** Of two target entries sharing a key, the later one is found. */
  lemma DuplicateKeyLastWins(a: TargetEntry, b: TargetEntry, key: TargetEntry -> string)
    requires key(a) == key(b)
    ensures Find(LookupOf([a, b], key), key(a)) == Wrappers.Some(b)
  {
    assert [a, b][..1] == [a];
    assert [a][..0] == [];
  }
}
