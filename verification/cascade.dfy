/**
 * The property cascade of `_updateProperties`: finding the style owner,
 * layering the owner's values, the host's and root's declarations and the
 * rules matching the host, then mixing in the overrides.
 */
module Cascade {
  import opened Wrappers
  import opened Values
  import opened DomTree
  import opened Styling

  /**
   * `_styleOwnerForNode`: the nearest host up the root-host chain that has a
   * StyleInfo, or the document owner when there is none.
   */
  function StyleOwner(t: Tree, infos: map<NodeId, StyleInfo>, node: NodeId): (r: NodeId)
    requires WellFormed(t) && node < |t.nodes|
    requires DocumentOwner in infos
    ensures r in infos && r < |t.nodes|
    ensures r == DocumentOwner || r < node
    decreases node
  {
    assert NodeWellFormed(t, node);
    match t.nodes[node].rootHost
    case Some(host) => if host in infos then host else StyleOwner(t, infos, host)
    case None => DocumentOwner
  }

  /** The style owner depends only on which hosts have a StyleInfo, not on what the records hold. */
  lemma {:induction false} StyleOwnerKeys(t: Tree, a: map<NodeId, StyleInfo>, b: map<NodeId, StyleInfo>, node: NodeId)
    requires WellFormed(t) && node < |t.nodes| && DocumentOwner in a && a.Keys == b.Keys
    ensures StyleOwner(t, a, node) == StyleOwner(t, b, node)
    decreases node
  {
    assert NodeWellFormed(t, node);
    if t.nodes[node].rootHost.Some? && t.nodes[node].rootHost.value !in a {
      StyleOwnerKeys(t, a, b, t.nodes[node].rootHost.value);
    }
  }

  /** The root-host chain of a node: its root host, that host's root host, and so on. */
  function HostChain(t: Tree, node: NodeId): (chain: seq<NodeId>)
    requires WellFormed(t) && node < |t.nodes|
    ensures forall i :: 0 <= i < |chain| ==> chain[i] < node
    decreases node
  {
    assert NodeWellFormed(t, node);
    match t.nodes[node].rootHost
    case Some(host) => [host] + HostChain(t, host)
    case None => []
  }

  /**
   * The style owner is the first host of the root-host chain that has a
   * StyleInfo, every host before it being skipped; with no such host it
   * is the document owner.
   */
  /** `r` is the host at position `k` of `chain`, the first one there with a StyleInfo. */
  ghost predicate FoundAt(chain: seq<NodeId>, infos: map<NodeId, StyleInfo>, r: NodeId, k: int) {
    0 <= k < |chain| && r == chain[k] && chain[k] in infos && forall j :: 0 <= j < k ==> chain[j] !in infos
  }

  /** `r` is the first host of `chain` with a StyleInfo, or the document owner when none has one. */
  ghost predicate FirstWithInfo(chain: seq<NodeId>, infos: map<NodeId, StyleInfo>, r: NodeId) {
    || (r == DocumentOwner && forall i :: 0 <= i < |chain| ==> chain[i] !in infos)
    || exists k :: FoundAt(chain, infos, r, k)
  }

  lemma {:induction false} StyleOwnerIsFirstWithInfo(t: Tree, infos: map<NodeId, StyleInfo>, node: NodeId)
    requires WellFormed(t) && node < |t.nodes| && DocumentOwner in infos
    ensures FirstWithInfo(HostChain(t, node), infos, StyleOwner(t, infos, node))
    decreases node
  {
    assert NodeWellFormed(t, node);
    var chain := HostChain(t, node);
    var r := StyleOwner(t, infos, node);
    match t.nodes[node].rootHost
    case None =>
    case Some(host) =>
      var rest := HostChain(t, host);
      assert chain == [host] + rest;
      if host !in infos {
        StyleOwnerIsFirstWithInfo(t, infos, host);
        assert r == StyleOwner(t, infos, host);
        if exists k :: FoundAt(rest, infos, r, k) {
          var k :| FoundAt(rest, infos, r, k);
          assert r == chain[k + 1] && chain[k + 1] in infos;
          forall j | 0 <= j < k + 1 ensures chain[j] !in infos {
            if j > 0 {
              assert chain[j] == rest[j - 1];
            }
          }
          assert FoundAt(chain, infos, r, k + 1);
        } else {
          assert r == DocumentOwner && forall i :: 0 <= i < |rest| ==> rest[i] !in infos;
          forall i | 0 <= i < |chain| ensures chain[i] !in infos {
            if i > 0 {
              assert chain[i] == rest[i - 1];
            }
          }
        }
      } else {
        assert FoundAt(chain, infos, r, 0);
      }
  }

  /** The keys of `overrides` whose value takes effect. */
  function EffectiveKeys(overrides: Props): set<string> {
    set p | p in overrides && TakesEffect(overrides[p])
  }

  /**
   * What `_mixinOverrideStyles(props, overrides)` leaves in `props`: an
   * override replaces the property when it takes effect, and every other
   * property keeps its value.
   */
  function MixinOverrides(props: Props, overrides: Props): Props {
    map p | p in props.Keys + EffectiveKeys(overrides) ::
      if p in overrides && TakesEffect(overrides[p]) then overrides[p] else props[p]
  }

  /**
   * `_mixinOverrideStyles`: writes each override into `props`, one key at a
   * time, when its value is truthy or exactly 0.
   */
  method MixinOverrideStyles(props: Props, overrides: Props) returns (r: Props)
    ensures r == MixinOverrides(props, overrides)
  {
    r := props;
    var todo := overrides.Keys;
    assert r == MixinOverrides(props, overrides - todo);
    while todo != {}
      invariant todo <= overrides.Keys
      invariant r == MixinOverrides(props, overrides - todo)
      decreases |todo|
    {
      var p :| p in todo;
      var v := overrides[p];
      MixinOneMore(props, overrides, todo, p);
      if Truthy(v) || v == Num(0) {
        r := r[p := v];
      }
      todo := todo - {p};
    }
    assert overrides - {} == overrides;
  }

  /** One more key of the overrides handled by the loop of `MixinOverrideStyles`. */
  lemma MixinOneMore(props: Props, overrides: Props, todo: set<string>, p: string)
    requires p in todo && todo <= overrides.Keys
    ensures var before, after := MixinOverrides(props, overrides - todo), MixinOverrides(props, overrides - (todo - {p}));
      after == if TakesEffect(overrides[p]) then before[p := overrides[p]] else before
  {
    var before, after := MixinOverrides(props, overrides - todo), MixinOverrides(props, overrides - (todo - {p}));
    var expected := if TakesEffect(overrides[p]) then before[p := overrides[p]] else before;
    assert EffectiveKeys(overrides - (todo - {p})) ==
      EffectiveKeys(overrides - todo) + (if TakesEffect(overrides[p]) then {p} else {});
    assert after.Keys == expected.Keys;
  }

  /**
   * An override key is written exactly when its value takes effect; a key
   * whose override is null, undefined, "", false or NaN keeps its previous
   * (possibly inherited) value; keys absent from the overrides are untouched.
   */
  lemma MixinOverridesSpec(props: Props, overrides: Props, p: string)
    ensures var r := MixinOverrides(props, overrides);
      && (p in overrides && TakesEffect(overrides[p]) ==> p in r && r[p] == overrides[p])
      && (p !in overrides || !TakesEffect(overrides[p]) ==>
            (p in r <==> p in props) && (p in props ==> r[p] == props[p]))
  {
  }

  /** Applying the same overrides twice is applying them once. */
  lemma MixinOverridesIdempotent(props: Props, overrides: Props)
    ensures MixinOverrides(MixinOverrides(props, overrides), overrides) == MixinOverrides(props, overrides)
  {
    var once := MixinOverrides(props, overrides);
    var twice := MixinOverrides(once, overrides);
    assert twice.Keys == once.Keys;
    forall p | p in once ensures twice[p] == once[p] {
      MixinOverridesSpec(once, overrides, p);
    }
  }

  /** Override values that take effect: the truthy ones and the number zero. */
  lemma TakesEffectCases(v: Value)
    ensures TakesEffect(v) <==> !(v in {Null, Undefined, Str(""), Bool(false), NaN})
  {
  }

  /**
   * The map `_updateProperties` hands to `reify`: the owner's properties as
   * the fallback, then `hostProps`, the owner's rules matching the host and
   * `rootProps` assigned in that order, then the overrides mixed in.
   */
  function LayeredProperties(ownerProps: Props, hostAndRoot: HostAndRootProps, matching: Props, overrides: Props): Props {
    MixinOverrides(ownerProps + hostAndRoot.hostProps + matching + hostAndRoot.rootProps, overrides)
  }

  /**
   * Reference for one lookup in the layered map, in order of precedence: a
   * qualifying override, then `rootProps`, the matching rules, `hostProps`,
   * and finally the owner's value.
   */
  function LookUp(p: string, ownerProps: Props, hostAndRoot: HostAndRootProps, matching: Props, overrides: Props): Option<Value> {
    if p in overrides && TakesEffect(overrides[p]) then Some(overrides[p])
    else if p in hostAndRoot.rootProps then Some(hostAndRoot.rootProps[p])
    else if p in matching then Some(matching[p])
    else if p in hostAndRoot.hostProps then Some(hostAndRoot.hostProps[p])
    else if p in ownerProps then Some(ownerProps[p])
    else None
  }

  /**
   * The layered map answers every lookup as the precedence order says: in
   * particular a name that no layer and no override sets reads through to
   * the owner's value, and is absent when the owner lacks it too.
   */
  lemma LayeredPropertiesLookUp(p: string, ownerProps: Props, hostAndRoot: HostAndRootProps, matching: Props, overrides: Props)
    ensures var m, l := LayeredProperties(ownerProps, hostAndRoot, matching, overrides), LookUp(p, ownerProps, hostAndRoot, matching, overrides);
      (p in m <==> l.Some?) && (p in m ==> m[p] == l.value)
  {
    MixinOverridesSpec(ownerProps + hostAndRoot.hostProps + matching + hostAndRoot.rootProps, overrides, p);
  }

  /**
   * `_updateProperties(host, styleInfo)` on the state: the host's new
   * `styleProperties` is the reified layered map built against its style
   * owner, and the host joins the record of resolutions.
   */
  function UpdatePropertiesF(s: State, env: Env, t: Tree, host: NodeId): (r: State)
    requires WellFormed(t) && host < |t.nodes| && Inv(s) && host in s.infos
    ensures Inv(r)
  {
    var owner := StyleOwner(t, s.infos, host);
    var ownerInfo := s.infos[owner];
    var info := s.infos[host];
    var props := LayeredProperties(
      ownerInfo.styleProperties.GetOr(map[]),
      env.hostAndRootPropertiesForScope(host, info.styleRules),
      env.propertyDataFromStyles(ownerInfo.styleRules, host),
      info.overrideStyleProperties);
    s.(infos := s.infos[host := info.(styleProperties := Some(env.reify(props)))],
       resolved := s.resolved + [host])
  }

  /**
   * Resolving a host replaces its `styleProperties` with the reified cascade
   * computed against its style owner, and changes nothing else.
   */
  lemma UpdatePropertiesResult(s: State, env: Env, t: Tree, host: NodeId)
    requires WellFormed(t) && host < |t.nodes| && Inv(s) && host in s.infos
    ensures var r, owner := UpdatePropertiesF(s, env, t, host), StyleOwner(t, s.infos, host);
      && r.infos.Keys == s.infos.Keys
      && (forall k :: k in s.infos && k != host ==> r.infos[k] == s.infos[k])
      && r.infos[host] == s.infos[host].(styleProperties := r.infos[host].styleProperties)
      && r.infos[host].styleProperties == Some(env.reify(LayeredProperties(
           s.infos[owner].styleProperties.GetOr(map[]),
           env.hostAndRootPropertiesForScope(host, s.infos[host].styleRules),
           env.propertyDataFromStyles(s.infos[owner].styleRules, host),
           s.infos[host].overrideStyleProperties)))
      && r == s.(infos := r.infos, resolved := s.resolved + [host])
  {
  }
}
