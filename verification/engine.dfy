/**
 * The `ShadyCSS` object on its non-native path: the scope counters, the
 * StyleInfo side table, the style cache and the CustomStyle dirty flag,
 * updated in place by its methods.
 */
module Engine {
  import opened Wrappers
  import opened Text
  import opened Values
  import opened DomTree
  import opened Styling
  import opened ScopeSelector
  import opened Cascade
  import opened ScopeCache
  import opened Traversal
  import opened ClassScoping

  class ShadyCss {
    /** The collaborators the engine calls out to. */
    const env: Env

    var scopeCounter: map<string, nat>
    var infos: map<NodeId, StyleInfo>
    var cache: seq<CacheEntry>
    /** `window.CustomStyle._documentDirty` */
    var documentDirty: bool
    /** Calls whose effect lies outside the engine: `findStyles`, `applyStyles`, `applyElementScopeSelector`. */
    var effects: seq<Effect>
    /** The hosts whose properties were resolved, in order. */
    ghost var resolved: seq<NodeId>

    ghost function Snapshot(): State
      reads this
    {
      State(scopeCounter, infos, cache, documentDirty, effects, resolved)
    }

    /**
     * The document owner's StyleInfo is always present, every cached
     * selector was handed out by its tag's counter, and no two cached
     * entries share a selector.
     */
    ghost predicate Valid()
      reads this
    {
      Inv(Snapshot()) && SelectorsIssued(Snapshot()) && SelectorsDistinct(Snapshot())
    }

    /**
     * Module load: empty counters and cache, and the document owner's
     * StyleInfo set. `documentDirty` is CustomStyle's flag at that moment.
     */
    constructor(env: Env, documentDirty: bool)
      ensures Valid() && Snapshot() == InitialState(documentDirty) && this.env == env
    {
      this.env := env;
      scopeCounter := map[];
      infos := map[DocumentOwner := DocumentOwnerInfo()];
      cache := [];
      this.documentDirty := documentDirty;
      effects := [];
      resolved := [];
    }

    /** `_generateScopeSelector(name)` */
    method GenerateScopeSelector(name: string) returns (selector: string)
      requires Valid()
      modifies this
      ensures Valid()
      ensures selector == NextSelector(old(scopeCounter), name)
      ensures Snapshot() == old(Snapshot()).(scopeCounter := Advance(old(scopeCounter), name))
    {
      var id := (if name in scopeCounter then scopeCounter[name] else 0) + 1;
      scopeCounter := scopeCounter[name := id];
      selector := name + "-" + Decimal(id);
    }

    /** `_prepareHost(host)` */
    method PrepareHost(t: Tree, host: NodeId)
      requires host < |t.nodes| && Valid()
      modifies this
      ensures Valid()
      ensures Snapshot() == old(Snapshot()).(infos := old(infos)[host := NewStyleInfo(env, t, host)])
    {
      var name := IsName(t, host);
      var typeExtension := None;
      if name != t.nodes[host].localName {
        typeExtension := Some(t.nodes[host].localName);
      }
      var info;
      if name in env.templates {
        var template := env.templates[name];
        info := StyleInfo(Some(template.styleAst), template.ownPropertyNames, name, typeExtension, template.cssBuild, None, None, map[]);
      } else {
        info := StyleInfo(None, [], name, typeExtension, "", None, None, map[]);
      }
      infos := infos[host := info];
    }

    /** `_updateProperties(host, styleInfo)` */
    method UpdateProperties(t: Tree, host: NodeId)
      requires WellFormed(t) && host < |t.nodes| && Valid() && host in infos
      modifies this
      ensures Valid()
      ensures Snapshot() == UpdatePropertiesF(old(Snapshot()), env, t, host)
    {
      var owner := StyleOwner(t, infos, host);
      var ownerInfo := infos[owner];
      var info := infos[host];
      var hostAndRootProps := env.hostAndRootPropertiesForScope(host, info.styleRules);
      var propertiesMatchingHost := env.propertyDataFromStyles(ownerInfo.styleRules, host);
      var props := ownerInfo.styleProperties.GetOr(map[]) + hostAndRootProps.hostProps + propertiesMatchingHost + hostAndRootProps.rootProps;
      props := MixinOverrideStyles(props, info.overrideStyleProperties);
      props := env.reify(props);
      infos := infos[host := info.(styleProperties := Some(props))];
      resolved := resolved + [host];
    }

    /** `_applyStyleProperties(host, styleInfo)` */
    method ApplyStyleProperties(t: Tree, host: NodeId) returns (style: StyleElement)
      requires host < |t.nodes| && Valid() && host in infos && infos[host].styleProperties.Some?
      modifies this
      ensures Valid()
      ensures (Snapshot(), style) == ApplyStylePropertiesF(old(Snapshot()), env, t, host)
    {
      var name := IsName(t, host);
      var info := infos[host];
      var props := info.styleProperties.value;
      var cacheEntry := Fetch(cache, name, props, info.ownStylePropertyNames);
      var cachedScopeSelector := if cacheEntry.Some? then cacheEntry.value.scopeSelector else "";
      var cachedStyle := if cacheEntry.Some? then Some(cacheEntry.value.styleElement) else None;
      var oldScopeSelector := info.scopeSelector;
      var selector := cachedScopeSelector;
      if selector == "" {
        selector := GenerateScopeSelector(name);
      }
      infos := infos[host := info.(scopeSelector := Some(selector))];
      style := env.applyElementStyle(host, props, selector, cachedStyle);
      effects := effects + [ApplyScopeSelector(host, selector, oldScopeSelector)];
      if cacheEntry.None? {
        cache := cache + [CacheEntry(name, props, style, selector)];
      }
      ApplyStylePropertiesKeepsIssued(old(Snapshot()), env, t, host);
      ApplyStylePropertiesKeepsDistinct(old(Snapshot()), env, t, host);
    }

    /**
     * `applyStyle(host, overrideProps)`: the CustomStyle block, then the
     * host step, then every shadow host beneath the host in pre-order, as
     * `WalkHost` describes.
     */
    method ApplyStyle(t: Tree, host: NodeId, overrides: Props)
      requires WellFormed(t) && host < |t.nodes| && Valid()
      modifies this
      decreases |t.nodes| - host, 2
      ensures Valid() && Snapshot() == WalkHost(DocumentStepF(old(Snapshot()), env, t), env, t, host, overrides)
    {
      DocumentStep(t);
      HostStep(t, host, overrides);
      assert NodeWellFormed(t, host);
      var kids := RootKids(t, host);
      ApplyToDescendants(t, kids, host);
    }

    /** The `window.CustomStyle` block at the start of `applyStyle`. */
    method DocumentStep(t: Tree)
      requires WellFormed(t) && Valid()
      modifies this
      ensures Valid() && Snapshot() == DocumentStepF(old(Snapshot()), env, t)
    {
      if env.hasCustomStyle && documentDirty {
        effects := effects + [FindStyles];
        UpdateProperties(t, DocumentOwner);
        effects := effects + [ApplyCustomStyles];
        documentDirty := false;
      }
    }

    /**
     * `_transformCustomStyleForDocument(style)` on the non-native path:
     * the custom style's rules are pushed onto the document owner's rule
     * list; `err` is the TypeError thrown when that list is missing.
     */
    method TransformCustomStyleForDocument(ast: StyleAst) returns (err: Option<Exception>)
      requires Valid()
      modifies this
      ensures Valid()
      ensures var r := TransformCustomStyleForDocumentF(old(Snapshot()), ast);
        if r.Ok? then Snapshot() == r.value && err.None? else Snapshot() == old(Snapshot()) && err == Some(r.error)
    {
      var info := infos[DocumentOwner];
      if info.styleRules.None? {
        return Some(TypeError);
      }
      infos := infos[DocumentOwner := info.(styleRules := Some(StyleAst(info.styleRules.value.rules + [Sheet(ast)])))];
      err := None;
    }

    /** The host part of `applyStyle`: prepare if needed, merge overrides, resolve, scope. */
    method HostStep(t: Tree, host: NodeId, overrides: Props)
      requires WellFormed(t) && host < |t.nodes| && Valid()
      modifies this
      ensures Valid() && Snapshot() == HostStepF(old(Snapshot()), env, t, host, overrides)
    {
      ghost var s0 := Snapshot();
      if host !in infos {
        PrepareHost(t, host);
      }
      var info := infos[host];
      assert info == BaseInfo(s0, env, t, host);
      infos := infos[host := info.(overrideStyleProperties := info.overrideStyleProperties + overrides)];
      assert Snapshot() == s0.(infos := s0.infos[host := MergedInfo(s0, env, t, host, overrides)]);
      UpdateProperties(t, host);
      if |infos[host].ownStylePropertyNames| > 0 {
        var _ := ApplyStyleProperties(t, host);
      }
    }

    /**
     * `_applyToDescendants(root)` for the children `kids` of node `lo`:
     * the children in index order, each handled by `ApplyToChild`.
     */
    method ApplyToDescendants(t: Tree, kids: seq<NodeId>, lo: NodeId)
      requires WellFormed(t) && lo < |t.nodes| && Valid() && Settled(env, Snapshot())
      requires forall i :: 0 <= i < |kids| ==> lo < kids[i] < |t.nodes|
      modifies this
      decreases |t.nodes| - lo, 1
      ensures Valid() && Snapshot() == WalkKids(old(Snapshot()), env, t, kids, lo)
    {
      for i := 0 to |kids|
        invariant Valid() && Settled(env, Snapshot())
        invariant WalkKids(Snapshot(), env, t, kids[i..], lo) == WalkKids(old(Snapshot()), env, t, kids, lo)
      {
        assert kids[i..][0] == kids[i] && kids[i..][1..] == kids[i + 1..];
        ApplyToChild(t, kids[i]);
      }
      assert kids[|kids|..] == [];
    }

    /**
     * The body of the `_applyToDescendants` loop for one child `c`: style
     * it when it has a shadow root, then walk its light children.
     */
    method ApplyToChild(t: Tree, c: NodeId)
      requires WellFormed(t) && c < |t.nodes| && Valid() && Settled(env, Snapshot())
      modifies this
      decreases |t.nodes| - c, 3
      ensures Valid() && Snapshot() == WalkChild(old(Snapshot()), env, t, c)
    {
      assert NodeWellFormed(t, c);
      if t.nodes[c].shadowRoot.Some? {
        ApplyStyle(t, c, map[]);
      }
      ApplyToDescendants(t, t.nodes[c].children, c);
    }

    /**
     * `updateStyles(properties)`: with CustomStyle present the document is
     * marked dirty first; then the document owner is styled with
     * `properties` as its overrides.
     */
    method UpdateStyles(t: Tree, properties: Props)
      requires WellFormed(t) && Valid()
      modifies this
      ensures Valid()
      ensures Snapshot() == WalkHost(DocumentStepF(old(Snapshot()).(documentDirty := old(documentDirty) || env.hasCustomStyle), env, t),
        env, t, DocumentOwner, properties)
    {
      if env.hasCustomStyle {
        documentDirty := true;
      }
      ApplyStyle(t, DocumentOwner, properties);
    }

    /**
     * `_setElementClassViaAttr(element, classString)`: the class string the
     * element gets, its own scoping pairs removed and the current ones
     * appended.
     */
    method SetElementClassViaAttr(t: Tree, element: NodeId, classString: string) returns (out: string)
      requires WellFormed(t) && element < |t.nodes|
      ensures out == ClassAttrOut(classString, RootHostName(t, element), t.nodes[element].classAttr, ScopeSelectorOf(infos, element))
    {
      var scopeName := RootHostName(t, element);
      var classes := CleanClassString(classString);
      if scopeName == "" {
        scopeName := FindScopeName(t.nodes[element].classAttr);
      }
      var selector := if element in infos then infos[element].scopeSelector else None;
      classes := classes + ScopePairs(scopeName, selector);
      out := Join(classes, " ");
    }

    /**
     * `_setElementClassViaClassList(element, classString)`: empties the
     * class list, capturing a scope name from it when none is known, then
     * adds the user's tokens and the scoping pairs one at a time; an
     * invalid token throws and stops the adding.
     */
    method SetElementClassViaClassList(t: Tree, element: NodeId, list: ClassList, classString: string) returns (err: Option<Exception>)
      requires WellFormed(t) && element < |t.nodes| && list.Valid()
      modifies list
      ensures list.Valid()
      ensures (list.tokens, err) == AddAll([], ClassListRequest(classString,
        CapturedScope(old(list.tokens), RootHostName(t, element)), ScopeSelectorOf(infos, element)))
    {
      var scopeName := ClearClassList(list, RootHostName(t, element));
      var classes := NonEmpty(Split(classString, IsSpaceChar));
      var selector := if element in infos then infos[element].scopeSelector else None;
      classes := classes + ScopePairs(scopeName, selector);
      err := None;
      if |classes| > 0 {
        err := AddClasses(list, classes);
      }
    }
  }
}
