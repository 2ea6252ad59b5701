/**
 * The discovery merge of `getGems` (miner/miner.js:338-374): an
 * insertion-ordered map from `owner/name` to repository, filled by the
 * trending and base queries with overwriting inserts and by the language
 * queries with insert-if-absent. The order of its values is the tie order
 * of the later stable sort.
 */
module Discovery {
  import opened Types
  import opened Derivation

  /** The abstract value of a JavaScript `Map`: its keys in insertion order and its entries. */
  datatype Index = Index(keys: seq<string>, entries: map<string, Repository>)

  const Empty: Index := Index([], map[])

  /** Keys are distinct and are exactly the keys of the entries. */
  ghost predicate WellFormed(ix: Index)
  {
    (forall i, j :: 0 <= i < j < |ix.keys| ==> ix.keys[i] != ix.keys[j]) &&
    (forall k :: k in ix.entries <==> k in ix.keys)
  }

  /** Every entry sits under its own `owner/name`. */
  ghost predicate KeyedByFullName(ix: Index)
  {
    forall k :: k in ix.entries ==> FullName(ix.entries[k]) == k
  }

  /** `map.set(key, value)`: a new key goes last, an existing key keeps its place and takes the new value. */
  function Put(ix: Index, key: string, repo: Repository): (r: Index)
    ensures WellFormed(ix) ==> WellFormed(r)
    ensures KeyedByFullName(ix) && key == FullName(repo) ==> KeyedByFullName(r)
    ensures r.entries == ix.entries[key := repo]
    ensures key in ix.entries ==> r.keys == ix.keys
    ensures key !in ix.entries ==> r.keys == ix.keys + [key]
  {
    Index(if key in ix.entries then ix.keys else ix.keys + [key], ix.entries[key := repo])
  }

  /** Some repository of `rs` is stored under `key`. */
  predicate Names(rs: seq<Repository>, key: string)
  {
    exists i :: 0 <= i < |rs| && FullName(rs[i]) == key
  }

  /** `repos.forEach(repo => allRepos.set(fullName(repo), repo))`. */
  function PutAll(ix: Index, rs: seq<Repository>): (r: Index)
    requires WellFormed(ix)
    ensures WellFormed(r)
  {
    if rs == [] then ix
    else
      var last := rs[|rs| - 1];
      Put(PutAll(ix, rs[..|rs| - 1]), FullName(last), last)
  }

  /**
   * A batch of overwriting inserts keeps the old keys in their order, ahead
   * of the new ones; afterwards the keys are the old ones and the batch's
   * names, and an entry the batch does not name is untouched.
   */
  lemma {:induction false} PutAllKeeps(ix: Index, rs: seq<Repository>)
    requires WellFormed(ix)
    ensures |ix.keys| <= |PutAll(ix, rs).keys| && PutAll(ix, rs).keys[..|ix.keys|] == ix.keys
    ensures forall k :: k in PutAll(ix, rs).entries <==> k in ix.entries || Names(rs, k)
    ensures forall k :: k in ix.entries && !Names(rs, k) ==> PutAll(ix, rs).entries[k] == ix.entries[k]
  {
    if rs != [] {
      var front, last := rs[..|rs| - 1], rs[|rs| - 1];
      var f := PutAll(ix, front);
      PutAllKeeps(ix, front);
      NamesOfFront(rs);
      var r := Put(f, FullName(last), last);
      assert PutAll(ix, rs) == r;
      if FullName(last) !in f.entries {
        assert r.keys[..|f.keys|] == f.keys;
        assert r.keys[..|ix.keys|] == f.keys[..|ix.keys|];
      }
    }
  }

  /** Overwriting inserts under each repository's own full name keep every entry under its own name. */
  lemma {:induction false} PutAllKeyed(ix: Index, rs: seq<Repository>)
    requires WellFormed(ix) && KeyedByFullName(ix)
    ensures KeyedByFullName(PutAll(ix, rs))
  {
    if rs != [] {
      PutAllKeyed(ix, rs[..|rs| - 1]);
    }
  }

  /**
   * The language-query loop body: insert `repo` only if its key is absent;
   * `added` says whether it was.
   */
  function PutIfAbsent(ix: Index, repo: Repository): (r: (Index, bool))
    ensures r.1 <==> FullName(repo) !in ix.entries
    ensures r.1 ==> r.0 == Put(ix, FullName(repo), repo)
    ensures !r.1 ==> r.0 == ix
  {
    var key := FullName(repo);
    if key !in ix.entries then (Put(ix, key, repo), true) else (ix, false)
  }

  /**
   * `langRepos.forEach(...)` with its `newCount`: insert-if-absent for each
   * repository, counting the insertions.
   */
  function PutAllAbsent(ix: Index, rs: seq<Repository>): (r: (Index, nat))
    requires WellFormed(ix)
    ensures WellFormed(r.0)
    ensures KeyedByFullName(ix) ==> KeyedByFullName(r.0)
    ensures |ix.keys| <= |r.0.keys| && r.0.keys[..|ix.keys|] == ix.keys
    ensures r.1 == |r.0.keys| - |ix.keys|
    ensures forall k :: k in ix.entries ==> k in r.0.entries && r.0.entries[k] == ix.entries[k]
    ensures forall k :: k in r.0.entries <==> k in ix.entries || Names(rs, k)
  {
    if rs == [] then (ix, 0)
    else
      var (front, count) := PutAllAbsent(ix, rs[..|rs| - 1]);
      var last := rs[|rs| - 1];
      assert forall k :: Names(rs, k) <==> Names(rs[..|rs| - 1], k) || FullName(last) == k by {
        NamesOfFront(rs);
      }
      var (next, added) := PutIfAbsent(front, last);
      (next, if added then count + 1 else count)
  }

  lemma NamesOfFront(rs: seq<Repository>)
    requires rs != []
    ensures forall k :: Names(rs, k) <==> Names(rs[..|rs| - 1], k) || FullName(rs[|rs| - 1]) == k
  {
    forall k ensures Names(rs, k) ==> Names(rs[..|rs| - 1], k) || FullName(rs[|rs| - 1]) == k {
      if Names(rs, k) {
        var i :| 0 <= i < |rs| && FullName(rs[i]) == k;
        if i < |rs| - 1 {
          assert rs[..|rs| - 1][i] == rs[i];
        }
      }
    }
    forall k | Names(rs[..|rs| - 1], k) ensures Names(rs, k) {
      var i :| 0 <= i < |rs| - 1 && FullName(rs[..|rs| - 1][i]) == k;
      assert rs[i] == rs[..|rs| - 1][i];
    }
  }

  /** Overwriting inserts: the value kept under a key is the last repository with that key. */
  lemma {:induction false} PutAllLastWins(ix: Index, rs: seq<Repository>, i: nat)
    requires WellFormed(ix) && i < |rs|
    requires forall j :: i < j < |rs| ==> FullName(rs[j]) != FullName(rs[i])
    ensures FullName(rs[i]) in PutAll(ix, rs).entries && PutAll(ix, rs).entries[FullName(rs[i])] == rs[i]
  {
    if i < |rs| - 1 {
      var front := rs[..|rs| - 1];
      assert front[i] == rs[i];
      forall j | i < j < |front| ensures FullName(front[j]) != FullName(front[i]) {
        assert front[j] == rs[j];
      }
      PutAllLastWins(ix, front, i);
    }
  }

  /** Insert-if-absent: a new key keeps the first repository with that key. */
  lemma {:induction false} PutAllAbsentFirstWins(ix: Index, rs: seq<Repository>, i: nat)
    requires WellFormed(ix) && i < |rs|
    requires FullName(rs[i]) !in ix.entries
    requires forall j :: 0 <= j < i ==> FullName(rs[j]) != FullName(rs[i])
    ensures PutAllAbsent(ix, rs).0.entries[FullName(rs[i])] == rs[i]
  {
    var front := rs[..|rs| - 1];
    if i < |rs| - 1 {
      assert front[i] == rs[i];
      forall j | 0 <= j < i ensures FullName(front[j]) != FullName(front[i]) {
        assert front[j] == rs[j];
      }
      PutAllAbsentFirstWins(ix, front, i);
    } else {
      NamesOfFront(rs);
    }
  }

  /** `newCount` is the number of distinct keys of the batch that were not present before. */
  lemma NewCountIsFreshKeys(ix: Index, rs: seq<Repository>)
    requires WellFormed(ix)
    ensures var (r, newCount) := PutAllAbsent(ix, rs);
      newCount == |r.keys| - |ix.keys| &&
      forall k :: k in r.keys[|ix.keys|..] <==> k !in ix.entries && Names(rs, k)
  {
    var (r, newCount) := PutAllAbsent(ix, rs);
    var n := |ix.keys|;
    var added := r.keys[n..];
    assert r.keys == ix.keys + added;
    forall k ensures k in added <==> k !in ix.entries && Names(rs, k) {
      if k in added {
        var p :| 0 <= p < |added| && added[p] == k;
        assert r.keys[n + p] == k;
        forall q | 0 <= q < n ensures ix.keys[q] != k {
          assert r.keys[q] == ix.keys[q];
        }
        assert k !in ix.keys;
        assert k in r.entries;
      }
      if k !in ix.entries && Names(rs, k) {
        assert k in r.keys;
        assert k !in ix.keys;
      }
    }
  }

  /** `Array.from(map.values())`: the values in key order. */
  function Values(ix: Index): (vs: seq<Repository>)
    requires WellFormed(ix)
    ensures |vs| == |ix.keys|
    ensures forall i :: 0 <= i < |vs| ==> vs[i] == ix.entries[ix.keys[i]]
  {
    seq(|ix.keys|, i requires 0 <= i < |ix.keys| => ix.entries[ix.keys[i]])
  }

  /** The values of a well-formed, full-name-keyed index have pairwise distinct full names. */
  lemma ValuesDistinct(ix: Index)
    requires WellFormed(ix) && KeyedByFullName(ix)
    ensures forall i, j :: 0 <= i < j < |Values(ix)| ==> FullName(Values(ix)[i]) != FullName(Values(ix)[j])
  {
  }

  /** The trending stage: the result of each of the first trending lookups, set in turn. */
  function TrendingStage(ix: Index, batches: seq<seq<Repository>>): (r: Index)
    requires WellFormed(ix)
    ensures WellFormed(r)
  {
    if batches == [] then ix
    else PutAll(TrendingStage(ix, batches[..|batches| - 1]), batches[|batches| - 1])
  }

  /** The language stage: one insert-if-absent batch per target language, with its `newCount`. */
  function LanguageStage(ix: Index, batches: seq<seq<Repository>>): (r: (Index, seq<nat>))
    requires WellFormed(ix)
    ensures WellFormed(r.0)
    ensures |r.1| == |batches|
    ensures forall k :: k in ix.entries ==> k in r.0.entries && r.0.entries[k] == ix.entries[k]
  {
    if batches == [] then (ix, [])
    else
      var (front, counts) := LanguageStage(ix, batches[..|batches| - 1]);
      var (next, newCount) := PutAllAbsent(front, batches[|batches| - 1]);
      (next, counts + [newCount])
  }

  /** Only the first ten trending names are looked up. */
  const TrendingLookups: nat := 10

  function FirstTrending(trending: seq<seq<Repository>>): seq<seq<Repository>>
  {
    if |trending| <= TrendingLookups then trending else trending[..TrendingLookups]
  }

  /**
   * The whole merge: `trending[i]` is what the lookup of the i-th trending
   * name returned, `base` the base query's repositories and `byLanguage[l]`
   * those of the l-th language query.
   */
  function Discovered(trending: seq<seq<Repository>>, base: seq<Repository>,
                      byLanguage: seq<seq<Repository>>): (r: (Index, seq<nat>))
    ensures WellFormed(r.0)
    ensures |r.1| == |byLanguage|
  {
    var overwritten := PutAll(TrendingStage(Empty, FirstTrending(trending)), base);
    LanguageStage(overwritten, byLanguage)
  }

  lemma {:induction false} TrendingStageKeyed(ix: Index, batches: seq<seq<Repository>>)
    requires WellFormed(ix) && KeyedByFullName(ix)
    ensures KeyedByFullName(TrendingStage(ix, batches))
  {
    if batches != [] {
      TrendingStageKeyed(ix, batches[..|batches| - 1]);
      PutAllKeyed(TrendingStage(ix, batches[..|batches| - 1]), batches[|batches| - 1]);
    }
  }

  lemma {:induction false} LanguageStageKeyed(ix: Index, batches: seq<seq<Repository>>)
    requires WellFormed(ix) && KeyedByFullName(ix)
    ensures KeyedByFullName(LanguageStage(ix, batches).0)
  {
    if batches != [] {
      LanguageStageKeyed(ix, batches[..|batches| - 1]);
    }
  }

  /** Keys stay unique: the merged repositories have pairwise distinct full names. */
  lemma DiscoveredUnique(trending: seq<seq<Repository>>, base: seq<Repository>,
                         byLanguage: seq<seq<Repository>>)
    ensures var vs := Values(Discovered(trending, base, byLanguage).0);
      forall i, j :: 0 <= i < j < |vs| ==> FullName(vs[i]) != FullName(vs[j])
  {
    var t := TrendingStage(Empty, FirstTrending(trending));
    TrendingStageKeyed(Empty, FirstTrending(trending));
    PutAllKeyed(t, base);
    LanguageStageKeyed(PutAll(t, base), byLanguage);
    ValuesDistinct(Discovered(trending, base, byLanguage).0);
  }

  /** Every stored repository has property `p`. */
  ghost predicate AllStored(ix: Index, p: Repository -> bool)
  {
    forall k :: k in ix.entries ==> p(ix.entries[k])
  }

  lemma {:induction false} PutAllStores(ix: Index, rs: seq<Repository>, p: Repository -> bool)
    requires WellFormed(ix) && AllStored(ix, p)
    requires forall i :: 0 <= i < |rs| ==> p(rs[i])
    ensures AllStored(PutAll(ix, rs), p)
  {
    if rs != [] {
      PutAllStores(ix, rs[..|rs| - 1], p);
    }
  }

  lemma {:induction false} PutAllAbsentStores(ix: Index, rs: seq<Repository>, p: Repository -> bool)
    requires WellFormed(ix) && AllStored(ix, p)
    requires forall i :: 0 <= i < |rs| ==> p(rs[i])
    ensures AllStored(PutAllAbsent(ix, rs).0, p)
  {
    if rs != [] {
      PutAllAbsentStores(ix, rs[..|rs| - 1], p);
    }
  }

  lemma {:induction false} TrendingStageStores(ix: Index, batches: seq<seq<Repository>>, p: Repository -> bool)
    requires WellFormed(ix) && AllStored(ix, p)
    requires forall b, x :: b in batches && x in b ==> p(x)
    ensures AllStored(TrendingStage(ix, batches), p)
  {
    if batches != [] {
      TrendingStageStores(ix, batches[..|batches| - 1], p);
      var last := batches[|batches| - 1];
      assert last in batches;
      forall i | 0 <= i < |last| ensures p(last[i]) {
        assert last[i] in last;
      }
      PutAllStores(TrendingStage(ix, batches[..|batches| - 1]), last, p);
    }
  }

  lemma {:induction false} LanguageStageStores(ix: Index, batches: seq<seq<Repository>>, p: Repository -> bool)
    requires WellFormed(ix) && AllStored(ix, p)
    requires forall b, x :: b in batches && x in b ==> p(x)
    ensures AllStored(LanguageStage(ix, batches).0, p)
  {
    if batches != [] {
      LanguageStageStores(ix, batches[..|batches| - 1], p);
      var last := batches[|batches| - 1];
      assert last in batches;
      forall i | 0 <= i < |last| ensures p(last[i]) {
        assert last[i] in last;
      }
      PutAllAbsentStores(LanguageStage(ix, batches[..|batches| - 1]).0, last, p);
    }
  }

  /** A property every lookup result has, every discovered repository has. */
  lemma DiscoveredStores(trending: seq<seq<Repository>>, base: seq<Repository>,
                         byLanguage: seq<seq<Repository>>, p: Repository -> bool)
    requires forall b, x :: b in trending && x in b ==> p(x)
    requires forall x :: x in base ==> p(x)
    requires forall b, x :: b in byLanguage && x in b ==> p(x)
    ensures forall x :: x in Values(Discovered(trending, base, byLanguage).0) ==> p(x)
  {
    var first := FirstTrending(trending);
    assert forall b :: b in first ==> b in trending;
    TrendingStageStores(Empty, first, p);
    var t := TrendingStage(Empty, first);
    PutAllStores(t, base, p);
    LanguageStageStores(PutAll(t, base), byLanguage, p);
  }

  /** Nothing is invented: every discovered repository is one some lookup returned. */
  lemma DiscoveredFromLookups(trending: seq<seq<Repository>>, base: seq<Repository>,
                              byLanguage: seq<seq<Repository>>)
    ensures forall x :: x in Values(Discovered(trending, base, byLanguage).0) ==>
      || x in base
      || (exists b :: b in trending && x in b)
      || (exists b :: b in byLanguage && x in b)
  {
    DiscoveredStores(trending, base, byLanguage,
      x => x in base || (exists b :: b in trending && x in b) || (exists b :: b in byLanguage && x in b));
  }

  /**
   * `allRepos`: a JavaScript `Map` from `owner/name` to repository, updated
   * in place.
   */
  class RepoIndex {
    var keys: seq<string>
    var entries: map<string, Repository>

    ghost function State(): Index
      reads this
    {
      Index(keys, entries)
    }

    ghost predicate Valid()
      reads this
    {
      WellFormed(State())
    }

    constructor ()
      ensures Valid() && State() == Empty
    {
      keys := [];
      entries := map[];
    }

    /** `map.has(key)`. */
    function Has(key: string): (b: bool)
      reads this
      ensures b <==> key in State().entries
    {
      key in entries
    }

    /** `map.set(key, repo)`. */
    method Set(key: string, repo: Repository)
      requires Valid()
      modifies this
      ensures Valid() && State() == Put(old(State()), key, repo)
    {
      if key !in entries {
        keys := keys + [key];
      }
      entries := entries[key := repo];
    }

    /** `Array.from(map.values())`. */
    method ValuesInOrder() returns (vs: seq<Repository>)
      requires Valid()
      ensures vs == Values(State())
    {
      vs := [];
      var i := 0;
      while i < |keys|
        invariant 0 <= i <= |keys|
        invariant vs == Values(State())[..i]
      {
        vs := vs + [entries[keys[i]]];
        i := i + 1;
      }
    }

    /** One `repos.forEach(repo => map.set(fullName, repo))` batch. */
    method SetAll(rs: seq<Repository>)
      requires Valid()
      modifies this
      ensures Valid() && State() == PutAll(old(State()), rs)
    {
      var j := 0;
      while j < |rs|
        invariant 0 <= j <= |rs|
        invariant Valid() && State() == PutAll(old(State()), rs[..j])
      {
        assert rs[..j + 1][..j] == rs[..j];
        Set(FullName(rs[j]), rs[j]);
        j := j + 1;
      }
      assert rs[..j] == rs;
    }

    /** One language batch: insert-if-absent, counting the insertions. */
    method SetAllAbsent(rs: seq<Repository>) returns (newCount: nat)
      requires Valid()
      modifies this
      ensures Valid()
      ensures State() == PutAllAbsent(old(State()), rs).0
      ensures newCount == PutAllAbsent(old(State()), rs).1
    {
      newCount := 0;
      var j := 0;
      while j < |rs|
        invariant 0 <= j <= |rs|
        invariant Valid()
        invariant State() == PutAllAbsent(old(State()), rs[..j]).0
        invariant newCount == PutAllAbsent(old(State()), rs[..j]).1
      {
        assert rs[..j + 1][..j] == rs[..j];
        ghost var before := State();
        var key := FullName(rs[j]);
        if !Has(key) {
          Set(key, rs[j]);
          newCount := newCount + 1;
        }
        assert State() == PutIfAbsent(before, rs[j]).0;
        j := j + 1;
      }
      assert rs[..j] == rs;
    }
  }

  /**
   * The discovery phase of `getGems`: trending lookups (the first ten),
   * then the base query, both overwriting, then the language queries,
   * inserting only new keys. Returns the map's values in insertion order
   * and each language query's `newCount`.
   */
  method Discover(trending: seq<seq<Repository>>, base: seq<Repository>, byLanguage: seq<seq<Repository>>)
    returns (repos: seq<Repository>, newCounts: seq<nat>)
    ensures var (ix, counts) := Discovered(trending, base, byLanguage);
      repos == Values(ix) && newCounts == counts
  {
    var allRepos := new RepoIndex();
    var first := FirstTrending(trending);
    var t := 0;
    while t < |first|
      invariant 0 <= t <= |first|
      invariant allRepos.Valid() && allRepos.State() == TrendingStage(Empty, first[..t])
    {
      assert first[..t + 1][..t] == first[..t];
      allRepos.SetAll(first[t]);
      t := t + 1;
    }
    assert first[..t] == first;
    allRepos.SetAll(base);
    ghost var merged := allRepos.State();
    newCounts := [];
    var l := 0;
    while l < |byLanguage|
      invariant 0 <= l <= |byLanguage|
      invariant allRepos.Valid() && (allRepos.State(), newCounts) == LanguageStage(merged, byLanguage[..l])
    {
      assert byLanguage[..l + 1][..l] == byLanguage[..l];
      var newCount := allRepos.SetAllAbsent(byLanguage[l]);
      newCounts := newCounts + [newCount];
      l := l + 1;
    }
    assert byLanguage[..l] == byLanguage;
    repos := allRepos.ValuesInOrder();
  }
}
