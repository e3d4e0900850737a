/**
 * `_applyStyleProperties`: reuse the scope selector of a cached stylesheet
 * for the same tag and the same own-property values, or allocate a new
 * selector and store the generated stylesheet under it.
 */
module ScopeCache {
  import opened Wrappers
  import opened Values
  import opened DomTree
  import opened Styling
  import opened Text
  import opened ScopeSelector

  /** Two property maps agree on `names`: each name is absent from both or has the same value in both. */
  predicate AgreeOn(a: Props, b: Props, names: seq<string>) {
    forall n :: n in names ==> (n in a <==> n in b) && (n in a ==> a[n] == b[n])
  }

  /** `styleCache.fetch(tag, props, ownPropertyNames)`: the first stored entry for `tag` whose properties agree with `props` on the names. */
  function Fetch(cache: seq<CacheEntry>, tag: string, props: Props, names: seq<string>): (r: Option<CacheEntry>)
    ensures r.Some? ==> exists i :: (0 <= i < |cache| && cache[i] == r.value
      && forall j :: 0 <= j < i ==> !(cache[j].tag == tag && AgreeOn(props, cache[j].properties, names)))
    ensures r.Some? ==> r.value.tag == tag && AgreeOn(props, r.value.properties, names)
    ensures r.None? <==> forall i :: 0 <= i < |cache| ==> !(cache[i].tag == tag && AgreeOn(props, cache[i].properties, names))
  {
    if cache == [] then None
    else if cache[0].tag == tag && AgreeOn(props, cache[0].properties, names) then Some(cache[0])
    else
      var r := Fetch(cache[1..], tag, props, names);
      assert forall i :: 1 <= i < |cache| ==> cache[i] == cache[1..][i - 1];
      r
  }

  /** Every stored selector was handed out by the counter of its tag. */
  ghost predicate SelectorsIssued(s: State) {
    forall i :: 0 <= i < |s.cache| ==> Issued(s.scopeCounter, s.cache[i])
  }

  /** The entry's selector is `tag-k` for a `k` the tag's counter has already reached. */
  ghost predicate Issued(counter: map<string, nat>, e: CacheEntry) {
    exists k: nat :: 1 <= k <= Count(counter, e.tag) && e.scopeSelector == Selector(e.tag, k)
  }

  /** The cache lookup `_applyStyleProperties` makes for a host. */
  function CacheEntryFor(s: State, t: Tree, host: NodeId): Option<CacheEntry>
    requires host < |t.nodes| && host in s.infos && s.infos[host].styleProperties.Some?
  {
    var info := s.infos[host];
    Fetch(s.cache, IsName(t, host), info.styleProperties.value, info.ownStylePropertyNames)
  }

  /** `cachedScopeSelector`: the hit's selector, or "" (falsy) on a miss. */
  function CachedScopeSelector(s: State, t: Tree, host: NodeId): string
    requires host < |t.nodes| && host in s.infos && s.infos[host].styleProperties.Some?
  {
    var entry := CacheEntryFor(s, t, host);
    if entry.Some? then entry.value.scopeSelector else ""
  }

  /**
   * `_applyStyleProperties(host, styleInfo)` on the state, with the style
   * element it returns.
   */
  function ApplyStylePropertiesF(s: State, env: Env, t: Tree, host: NodeId): (r: (State, StyleElement))
    requires host < |t.nodes| && Inv(s) && host in s.infos && s.infos[host].styleProperties.Some?
    ensures Inv(r.0)
  {
    var info := s.infos[host];
    var tagName := IsName(t, host);
    var props := info.styleProperties.value;
    var entry := CacheEntryFor(s, t, host);
    var cached := CachedScopeSelector(s, t, host);
    var cachedStyle := if entry.Some? then Some(entry.value.styleElement) else None;
    var selector := if cached != "" then cached else NextSelector(s.scopeCounter, tagName);
    var counter := if cached != "" then s.scopeCounter else Advance(s.scopeCounter, tagName);
    var style := env.applyElementStyle(host, props, selector, cachedStyle);
    var cache := if entry.None? then s.cache + [CacheEntry(tagName, props, style, selector)] else s.cache;
    (s.(scopeCounter := counter,
        infos := s.infos[host := info.(scopeSelector := Some(selector))],
        cache := cache,
        effects := s.effects + [ApplyScopeSelector(host, selector, info.scopeSelector)]),
     style)
  }

  /**
   * Only the host's scope selector, the counters, the cache and the effect
   * log change; the host's previous selector is passed on as the old one.
   */
  lemma ApplyStylePropertiesFrame(s: State, env: Env, t: Tree, host: NodeId)
    requires host < |t.nodes| && Inv(s) && host in s.infos && s.infos[host].styleProperties.Some?
    ensures var r := ApplyStylePropertiesF(s, env, t, host).0;
      && r.infos.Keys == s.infos.Keys
      && (forall k :: k in s.infos && k != host ==> r.infos[k] == s.infos[k])
      && r.infos[host].scopeSelector.Some?
      && r.infos[host] == s.infos[host].(scopeSelector := r.infos[host].scopeSelector)
      && r.documentDirty == s.documentDirty && r.resolved == s.resolved
      && r.effects == s.effects + [ApplyScopeSelector(host, r.infos[host].scopeSelector.value, s.infos[host].scopeSelector)]
  {
  }

  /**
   * A cache hit that carries a selector: the host takes the cached
   * selector and the cached style element, no counter moves and nothing is
   * stored.
   */
  lemma ApplyStylePropertiesOnHit(s: State, env: Env, t: Tree, host: NodeId)
    requires host < |t.nodes| && Inv(s) && host in s.infos && s.infos[host].styleProperties.Some?
    requires CacheEntryFor(s, t, host).Some? && CacheEntryFor(s, t, host).value.scopeSelector != ""
    ensures var e, res := CacheEntryFor(s, t, host).value, ApplyStylePropertiesF(s, env, t, host);
      && res.0.infos[host].scopeSelector == Some(e.scopeSelector)
      && res.0.scopeCounter == s.scopeCounter
      && res.0.cache == s.cache
      && res.1 == env.applyElementStyle(host, s.infos[host].styleProperties.value, e.scopeSelector, Some(e.styleElement))
  {
  }

  /**
   * A cache miss: exactly one new selector is allocated for the tag, and
   * exactly one entry is stored, holding the host's properties, the style
   * element produced for them and the new selector.
   */
  lemma ApplyStylePropertiesOnMiss(s: State, env: Env, t: Tree, host: NodeId)
    requires host < |t.nodes| && Inv(s) && host in s.infos && s.infos[host].styleProperties.Some?
    requires CacheEntryFor(s, t, host).None?
    ensures var tagName, props, res := IsName(t, host), s.infos[host].styleProperties.value, ApplyStylePropertiesF(s, env, t, host);
      var selector := Selector(tagName, Count(s.scopeCounter, tagName) + 1);
      && res.0.infos[host].scopeSelector == Some(selector)
      && Count(res.0.scopeCounter, tagName) == Count(s.scopeCounter, tagName) + 1
      && (forall other :: other != tagName ==> Count(res.0.scopeCounter, other) == Count(s.scopeCounter, other))
      && res.0.cache == s.cache + [CacheEntry(tagName, props, res.1, selector)]
      && res.1 == env.applyElementStyle(host, props, selector, None)
  {
  }

  /**
   * Stored selectors are never reused: the selector a miss allocates
   * differs from every selector already in the cache.
   */
  lemma ApplyStylePropertiesFresh(s: State, env: Env, t: Tree, host: NodeId)
    requires host < |t.nodes| && Inv(s) && host in s.infos && s.infos[host].styleProperties.Some?
    requires SelectorsIssued(s) && CacheEntryFor(s, t, host).None?
    ensures var r := ApplyStylePropertiesF(s, env, t, host).0;
      forall i :: 0 <= i < |s.cache| ==> s.cache[i].scopeSelector != r.infos[host].scopeSelector.value
  {
    var tagName := IsName(t, host);
    ApplyStylePropertiesOnMiss(s, env, t, host);
    forall i | 0 <= i < |s.cache|
      ensures s.cache[i].scopeSelector != NextSelector(s.scopeCounter, tagName)
    {
      assert Issued(s.scopeCounter, s.cache[i]);
      var k: nat :| 1 <= k <= Count(s.scopeCounter, s.cache[i].tag) && s.cache[i].scopeSelector == Selector(s.cache[i].tag, k);
      NextSelectorFresh(s.scopeCounter, tagName, s.cache[i].tag, k);
    }
  }

  /** The cache only ever holds selectors its counters handed out. */
  lemma ApplyStylePropertiesKeepsIssued(s: State, env: Env, t: Tree, host: NodeId)
    requires host < |t.nodes| && Inv(s) && host in s.infos && s.infos[host].styleProperties.Some?
    requires SelectorsIssued(s)
    ensures SelectorsIssued(ApplyStylePropertiesF(s, env, t, host).0)
  {
    var r := ApplyStylePropertiesF(s, env, t, host).0;
    var tagName := IsName(t, host);
    var missed := CacheEntryFor(s, t, host).None?;
    if missed {
      ApplyStylePropertiesOnMiss(s, env, t, host);
    }
    assert r.cache == s.cache || (missed && |r.cache| == |s.cache| + 1 && r.cache[|s.cache|].tag == tagName
      && r.cache[|s.cache|].scopeSelector == Selector(tagName, Count(r.scopeCounter, tagName)));
    assert forall name :: Count(r.scopeCounter, name) >= Count(s.scopeCounter, name);
    forall i | 0 <= i < |r.cache| ensures Issued(r.scopeCounter, r.cache[i]) {
      if i < |s.cache| {
        assert r.cache[i] == s.cache[i] && Issued(s.scopeCounter, s.cache[i]);
        var k: nat :| 1 <= k <= Count(s.scopeCounter, s.cache[i].tag) && s.cache[i].scopeSelector == Selector(s.cache[i].tag, k);
        assert 1 <= k <= Count(r.scopeCounter, r.cache[i].tag);
      } else {
        var k := Count(r.scopeCounter, tagName);
        assert 1 <= k <= Count(r.scopeCounter, r.cache[i].tag) && r.cache[i].scopeSelector == Selector(r.cache[i].tag, k);
      }
    }
    assert SelectorsIssued(r);
  }

  /** No two stored entries share a selector. */
  ghost predicate SelectorsDistinct(s: State) {
    forall i, j :: 0 <= i < j < |s.cache| ==> s.cache[i].scopeSelector != s.cache[j].scopeSelector
  }

  /**
   * Scoping never stores a selector twice: with every stored selector
   * handed out by its counter, the entry a miss adds carries a selector no
   * other entry has.
   */
  lemma ApplyStylePropertiesKeepsDistinct(s: State, env: Env, t: Tree, host: NodeId)
    requires host < |t.nodes| && Inv(s) && host in s.infos && s.infos[host].styleProperties.Some?
    requires SelectorsIssued(s) && SelectorsDistinct(s)
    ensures SelectorsDistinct(ApplyStylePropertiesF(s, env, t, host).0)
  {
    var r := ApplyStylePropertiesF(s, env, t, host).0;
    if CacheEntryFor(s, t, host).None? {
      ApplyStylePropertiesFresh(s, env, t, host);
      ApplyStylePropertiesOnMiss(s, env, t, host);
      assert r.cache[|s.cache|].scopeSelector == r.infos[host].scopeSelector.value;
      forall i, j | 0 <= i < j < |r.cache| ensures r.cache[i].scopeSelector != r.cache[j].scopeSelector {
        assert r.cache[i] == s.cache[i];
        if j < |s.cache| {
          assert r.cache[j] == s.cache[j];
        }
      }
    }
  }

  /**
   * After a miss, looking up the same tag with any properties that agree
   * with the stored ones on the own names finds the entry just stored.
   */
  lemma {:induction false} StoreThenFetch(s: State, env: Env, t: Tree, host: NodeId, props: Props)
    requires host < |t.nodes| && Inv(s) && host in s.infos && s.infos[host].styleProperties.Some?
    requires CacheEntryFor(s, t, host).None?
    requires AgreeOn(props, s.infos[host].styleProperties.value, s.infos[host].ownStylePropertyNames)
    ensures var r := ApplyStylePropertiesF(s, env, t, host).0;
      Fetch(r.cache, IsName(t, host), props, s.infos[host].ownStylePropertyNames) == Some(r.cache[|s.cache|])
  {
    var r := ApplyStylePropertiesF(s, env, t, host).0;
    var tagName, names, stored := IsName(t, host), s.infos[host].ownStylePropertyNames, s.infos[host].styleProperties.value;
    forall i | 0 <= i < |s.cache| ensures !(r.cache[i].tag == tagName && AgreeOn(props, r.cache[i].properties, names)) {
      assert r.cache[i] == s.cache[i];
      assert !(s.cache[i].tag == tagName && AgreeOn(stored, s.cache[i].properties, names));
      if s.cache[i].tag == tagName && AgreeOn(props, s.cache[i].properties, names) {
        assert AgreeOn(stored, s.cache[i].properties, names);
      }
    }
    var f := Fetch(r.cache, tagName, props, names);
    assert r.cache[|s.cache|].tag == tagName && AgreeOn(props, r.cache[|s.cache|].properties, names);
    assert f.Some?;
    var i :| 0 <= i < |r.cache| && r.cache[i] == f.value
      && (forall j :: 0 <= j < i ==> !(r.cache[j].tag == tagName && AgreeOn(props, r.cache[j].properties, names)));
    assert i == |s.cache|;
  }

  /** The first two steps of `CacheScenario`: a miss that stores `x-a-1`, then a hit on it. */
  lemma CacheScenarioHit(s: State, env: Env, t: Tree, h1: NodeId, h2: NodeId, h3: NodeId)
    requires h1 < |t.nodes| && h2 < |t.nodes| && h3 < |t.nodes| && h1 != h2 && h2 != h3 && h1 != h3
    requires IsName(t, h1) == "x-a" && IsName(t, h2) == "x-a"
    requires Inv(s) && s.cache == [] && "x-a" !in s.scopeCounter
    requires h1 in s.infos && h2 in s.infos && h3 in s.infos
    requires s.infos[h1].ownStylePropertyNames == ["--c"] && s.infos[h1].styleProperties == Some(map["--c" := Str("red")])
    requires s.infos[h2].ownStylePropertyNames == ["--c"] && s.infos[h2].styleProperties == Some(map["--c" := Str("red")])
    ensures var s1 := ApplyStylePropertiesF(s, env, t, h1).0;
      var s2 := ApplyStylePropertiesF(s1, env, t, h2).0;
      && s1.infos[h1].scopeSelector == Some("x-a-1")
      && s2.infos[h2].scopeSelector == Some("x-a-1")
      && |s2.cache| == 1 && s2.cache[0].tag == "x-a" && s2.cache[0].properties == map["--c" := Str("red")]
      && Count(s2.scopeCounter, "x-a") == 1 && s2.infos[h3] == s.infos[h3] && Inv(s2)
  {
    var red := map["--c" := Str("red")];
    assert Selector("x-a", 1) == "x-a-1" by {
      assert Decimal(1) == "1";
    }
    var s1 := ApplyStylePropertiesF(s, env, t, h1).0;
    assert CacheEntryFor(s, t, h1).None?;
    ApplyStylePropertiesOnMiss(s, env, t, h1);
    ApplyStylePropertiesFrame(s, env, t, h1);
    assert AgreeOn(red, s1.cache[0].properties, ["--c"]);
    assert CacheEntryFor(s1, t, h2) == Some(s1.cache[0]);
    ApplyStylePropertiesOnHit(s1, env, t, h2);
    ApplyStylePropertiesFrame(s1, env, t, h2);
  }

  /**
   * A worked example: three `x-a` hosts whose own property
   * `--c` is red, red and blue get `x-a-1`, `x-a-1` (a cache hit) and
   * `x-a-2`.
   */
  lemma CacheScenario(s: State, env: Env, t: Tree, h1: NodeId, h2: NodeId, h3: NodeId)
    requires h1 < |t.nodes| && h2 < |t.nodes| && h3 < |t.nodes| && h1 != h2 && h2 != h3 && h1 != h3
    requires IsName(t, h1) == "x-a" && IsName(t, h2) == "x-a" && IsName(t, h3) == "x-a"
    requires Inv(s) && s.cache == [] && "x-a" !in s.scopeCounter
    requires h1 in s.infos && h2 in s.infos && h3 in s.infos
    requires s.infos[h1].ownStylePropertyNames == ["--c"] && s.infos[h1].styleProperties == Some(map["--c" := Str("red")])
    requires s.infos[h2].ownStylePropertyNames == ["--c"] && s.infos[h2].styleProperties == Some(map["--c" := Str("red")])
    requires s.infos[h3].ownStylePropertyNames == ["--c"] && s.infos[h3].styleProperties == Some(map["--c" := Str("blue")])
    ensures var s1 := ApplyStylePropertiesF(s, env, t, h1).0;
      var s2 := ApplyStylePropertiesF(s1, env, t, h2).0;
      var s3 := ApplyStylePropertiesF(s2, env, t, h3).0;
      && s1.infos[h1].scopeSelector == Some("x-a-1")
      && s2.infos[h2].scopeSelector == Some("x-a-1")
      && s3.infos[h3].scopeSelector == Some("x-a-2")
      && |s3.cache| == 2
  {
    CacheScenarioHit(s, env, t, h1, h2, h3);
    var s2 := ApplyStylePropertiesF(ApplyStylePropertiesF(s, env, t, h1).0, env, t, h2).0;
    assert Selector("x-a", 2) == "x-a-2" by {
      assert Decimal(2) == "2";
    }
    assert s2.cache[0].properties["--c"] != Str("blue");
    assert CacheEntryFor(s2, t, h3).None?;
    ApplyStylePropertiesOnMiss(s2, env, t, h3);
  }
}
