/**
 * The steps `applyStyle` takes on the engine state (the document-dirty
 * step, lazy StyleInfo creation, accumulation of overrides, resolution and
 * scoping of a host) and the order in which `applyStyle` and
 * `_applyToDescendants` reach the hosts of a subtree.
 */
module Traversal {
  import opened Wrappers
  import opened Values
  import opened DomTree
  import opened ComposedTree
  import opened Styling
  import opened Cascade
  import opened ScopeCache

  /**
   * `_prepareHost`: the StyleInfo a host gets on first styling, read from
   * the template registered under its `is` name. `typeExtension` is the
   * local name when the `is` name differs from it.
   */
  function NewStyleInfo(env: Env, t: Tree, host: NodeId): (info: StyleInfo)
    requires host < |t.nodes|
    ensures info.elementName == IsName(t, host)
    ensures info.typeExtension.Some? <==> IsName(t, host) != t.nodes[host].localName
    ensures info.typeExtension.Some? ==> info.typeExtension.value == t.nodes[host].localName
    ensures info.styleProperties.None? && info.scopeSelector.None? && info.overrideStyleProperties == map[]
    ensures IsName(t, host) in env.templates ==>
      info.styleRules == Some(env.templates[IsName(t, host)].styleAst) && info.ownStylePropertyNames == env.templates[IsName(t, host)].ownPropertyNames
    ensures IsName(t, host) !in env.templates ==> info.styleRules.None? && info.ownStylePropertyNames == []
  {
    var name := IsName(t, host);
    var localName := t.nodes[host].localName;
    var typeExtension := if name != localName then Some(localName) else None;
    if name in env.templates then
      var template := env.templates[name];
      StyleInfo(Some(template.styleAst), template.ownPropertyNames, name, typeExtension, template.cssBuild, None, None, map[])
    else
      StyleInfo(None, [], name, typeExtension, "", None, None, map[])
  }

  /**
   * The `window.CustomStyle` block of `applyStyle`: when the document is
   * dirty, find the custom styles, resolve the document owner, apply the
   * custom styles and clear the flag.
   */
  function DocumentStepF(s: State, env: Env, t: Tree): (r: State)
    requires WellFormed(t) && Inv(s)
    ensures Inv(r) && Settled(env, r) && s.infos.Keys == r.infos.Keys
    ensures r.documentDirty == (s.documentDirty && !env.hasCustomStyle)
    ensures r.resolved == s.resolved + (if env.hasCustomStyle && s.documentDirty then [DocumentOwner] else [])
    ensures Settled(env, s) ==> r == s
  {
    if env.hasCustomStyle && s.documentDirty then
      var s1 := UpdatePropertiesF(s.(effects := s.effects + [FindStyles]), env, t, DocumentOwner);
      s1.(effects := s1.effects + [ApplyCustomStyles], documentDirty := false)
    else s
  }

  /**
   * `_transformCustomStyleForDocument(style)` on the non-native path: the
   * custom style's rule list, already rewritten by
   * `StyleTransformer.documentRule`, is pushed onto the document owner's
   * rule list. Reading `.rules` of a missing list throws.
   */
  function TransformCustomStyleForDocumentF(s: State, ast: StyleAst): (r: Result<State, Exception>)
    requires Inv(s)
    ensures r.Err? <==> s.infos[DocumentOwner].styleRules.None?
    ensures r.Err? ==> r.error == TypeError
    ensures r.Ok? ==> Inv(r.value)
    ensures r.Ok? ==> r.value.infos[DocumentOwner].styleRules == Some(StyleAst(s.infos[DocumentOwner].styleRules.value.rules + [Sheet(ast)]))
  {
    var info := s.infos[DocumentOwner];
    if info.styleRules.None? then Err(TypeError)
    else
      var rules := StyleAst(info.styleRules.value.rules + [Sheet(ast)]);
      Ok(s.(infos := s.infos[DocumentOwner := info.(styleRules := Some(rules))]))
  }

  /**
   * Only the document owner's rule list changes, so the next dirty-document
   * step resolves the document owner from the rules with the custom style's
   * appended: both StyleProperties calls receive the extended list.
   */
  lemma {:induction false} CustomStyleReachesDocument(s: State, env: Env, t: Tree, ast: StyleAst)
    requires WellFormed(t) && Inv(s) && s.infos[DocumentOwner].styleRules.Some?
    requires env.hasCustomStyle && s.documentDirty
    ensures var r := TransformCustomStyleForDocumentF(s, ast).value;
      var rules := Some(StyleAst(s.infos[DocumentOwner].styleRules.value.rules + [Sheet(ast)]));
      var info := s.infos[DocumentOwner];
      && r == s.(infos := s.infos[DocumentOwner := info.(styleRules := rules)])
      && DocumentStepF(r, env, t).infos[DocumentOwner].styleProperties == Some(env.reify(LayeredProperties(
           info.styleProperties.GetOr(map[]),
           env.hostAndRootPropertiesForScope(DocumentOwner, rules),
           env.propertyDataFromStyles(rules, DocumentOwner),
           info.overrideStyleProperties)))
  {
    var r := TransformCustomStyleForDocumentF(s, ast).value;
    var r1 := r.(effects := r.effects + [FindStyles]);
    assert StyleOwner(t, r1.infos, DocumentOwner) == DocumentOwner;
    UpdatePropertiesResult(r1, env, t, DocumentOwner);
  }

  /** The StyleInfo the host step starts from: the stored one, or a fresh one from `_prepareHost`. */
  function BaseInfo(s: State, env: Env, t: Tree, host: NodeId): StyleInfo
    requires host < |t.nodes|
  {
    if host in s.infos then s.infos[host] else NewStyleInfo(env, t, host)
  }

  /** `Object.assign(styleInfo.overrideStyleProperties, overrideProps)` on the starting record. */
  function MergedInfo(s: State, env: Env, t: Tree, host: NodeId, overrides: Props): StyleInfo
    requires host < |t.nodes|
  {
    var base := BaseInfo(s, env, t, host);
    base.(overrideStyleProperties := base.overrideStyleProperties + overrides)
  }

  /**
   * The host part of `applyStyle`: create the StyleInfo if there is none,
   * merge the overrides into the stored ones, resolve the host's
   * properties and, when it declares own properties, scope it.
   */
  function HostStepF(s: State, env: Env, t: Tree, host: NodeId, overrides: Props): (r: State)
    requires WellFormed(t) && host < |t.nodes| && Inv(s)
    ensures Inv(r) && host in r.infos && r.infos.Keys == s.infos.Keys + {host}
    ensures r.documentDirty == s.documentDirty && r.resolved == s.resolved + [host]
  {
    var s1 := UpdatePropertiesF(s.(infos := s.infos[host := MergedInfo(s, env, t, host, overrides)]), env, t, host);
    if |s1.infos[host].ownStylePropertyNames| > 0 then ApplyStylePropertiesF(s1, env, t, host).0 else s1
  }

  /** Every host that had a StyleInfo still has one. */
  ghost predicate KeysGrow(before: map<NodeId, StyleInfo>, after: map<NodeId, StyleInfo>) {
    forall k :: k in before ==> k in after
  }

  /** The records of the nodes before `bound` are as they were, and none was added. */
  ghost predicate KeptBelow(before: map<NodeId, StyleInfo>, after: map<NodeId, StyleInfo>, bound: int) {
    forall k: NodeId :: k < bound ==> (k in before <==> k in after) && (k in before ==> after[k] == before[k])
  }

  // The reference order: hosts in the order applyStyle reaches them.

  /** The hosts `applyStyle(host)` resolves, in order: the host, then those found under its root. */
  function VisitOrder(t: Tree, host: NodeId): seq<NodeId>
    requires WellFormed(t) && host < |t.nodes|
    decreases |t.nodes| - host, 2, 0
  {
    assert NodeWellFormed(t, host);
    [host] + VisitKids(t, RootKids(t, host), host)
  }

  /** The children of a node, first to last, each contributing what `VisitChild` says. */
  function VisitKids(t: Tree, kids: seq<NodeId>, lo: NodeId): seq<NodeId>
    requires WellFormed(t) && lo < |t.nodes|
    requires forall i :: 0 <= i < |kids| ==> lo < kids[i] < |t.nodes|
    decreases |t.nodes| - lo, 1, |kids|
  {
    if kids == [] then [] else VisitChild(t, kids[0]) + VisitKids(t, kids[1..], lo)
  }

  /** A child: its own subtree order when it has a shadow root, then its light children. */
  function VisitChild(t: Tree, c: NodeId): seq<NodeId>
    requires WellFormed(t) && c < |t.nodes|
    decreases |t.nodes| - c, 3, 0
  {
    assert NodeWellFormed(t, c);
    (if t.nodes[c].shadowRoot.Some? then VisitOrder(t, c) else []) + VisitKids(t, t.nodes[c].children, c)
  }

  /** The last child's contribution comes last: the forward order read as a fold. */
  lemma {:induction false} VisitKidsSnoc(t: Tree, kids: seq<NodeId>, lo: NodeId)
    requires WellFormed(t) && lo < |t.nodes| && kids != []
    requires forall i :: 0 <= i < |kids| ==> lo < kids[i] < |t.nodes|
    ensures VisitKids(t, kids, lo) == VisitKids(t, kids[..|kids| - 1], lo) + VisitChild(t, kids[|kids| - 1])
    decreases |kids|
  {
    var n := |kids|;
    if n == 1 {
      assert kids[1..] == [] && kids[..0] == [];
    } else {
      VisitKidsSnoc(t, kids[1..], lo);
      assert kids[1..][..n - 2] == kids[..n - 1][1..];
      assert kids[..n - 1][0] == kids[0];
      assert kids[1..][n - 2] == kids[n - 1];
    }
  }

  /**
   * The walk is pre-order over hosts: it starts with the host itself, and
   * every later entry lies beneath it in the composed tree and has a shadow
   * root of its own. Hosts without a shadow root are walked through, not
   * styled.
   */
  lemma {:induction false} VisitOrderShape(t: Tree, host: NodeId)
    requires WellFormed(t) && host < |t.nodes|
    ensures var v := VisitOrder(t, host);
      && |v| >= 1 && v[0] == host
      && forall x :: x in v[1..] ==> host < x < |t.nodes| && t.nodes[x].shadowRoot.Some? && Under(t, host, x)
    decreases |t.nodes| - host, 2, 0
  {
    assert NodeWellFormed(t, host);
    var kids := RootKids(t, host);
    VisitKidsShape(t, kids, host);
    assert VisitOrder(t, host)[1..] == VisitKids(t, kids, host);
    forall x | x in VisitKids(t, kids, host) ensures Under(t, host, x) {
      var i :| 0 <= i < |kids| && Under(t, kids[i], x);
      assert Links(t, host)[|t.nodes[host].children| + i] == kids[i];
    }
  }

  lemma {:induction false} VisitKidsShape(t: Tree, kids: seq<NodeId>, lo: NodeId)
    requires WellFormed(t) && lo < |t.nodes|
    requires forall i :: 0 <= i < |kids| ==> lo < kids[i] < |t.nodes|
    ensures forall x :: x in VisitKids(t, kids, lo) ==>
      && lo < x < |t.nodes| && t.nodes[x].shadowRoot.Some?
      && exists i :: 0 <= i < |kids| && Under(t, kids[i], x)
    decreases |t.nodes| - lo, 1, |kids|
  {
    if kids != [] {
      VisitChildShape(t, kids[0]);
      VisitKidsShape(t, kids[1..], lo);
      forall x | x in VisitKids(t, kids[1..], lo) ensures exists i :: 0 <= i < |kids| && Under(t, kids[i], x) {
        var j :| 0 <= j < |kids[1..]| && Under(t, kids[1..][j], x);
        assert kids[1..][j] == kids[j + 1];
      }
    }
  }

  lemma {:induction false} VisitChildShape(t: Tree, c: NodeId)
    requires WellFormed(t) && c < |t.nodes|
    ensures forall x :: x in VisitChild(t, c) ==> c <= x < |t.nodes| && t.nodes[x].shadowRoot.Some? && Under(t, c, x)
    decreases |t.nodes| - c, 3, 0
  {
    assert NodeWellFormed(t, c);
    if t.nodes[c].shadowRoot.Some? {
      VisitOrderShape(t, c);
      var v := VisitOrder(t, c);
      assert v == [c] + v[1..];
    }
    var kids := t.nodes[c].children;
    VisitKidsShape(t, kids, c);
    forall x | x in VisitKids(t, kids, c) ensures Under(t, c, x) {
      var i :| 0 <= i < |kids| && Under(t, kids[i], x);
      assert Links(t, c)[i] == kids[i];
    }
  }

  /**
   * `w` lists distinct nodes of the tree, and a node comes before every
   * other node of `w` beneath it.
   */
  ghost predicate AncestorsFirst(t: Tree, w: seq<NodeId>)
    requires WellFormed(t)
  {
    && (forall i :: 0 <= i < |w| ==> w[i] < |t.nodes|)
    && forall i, j :: 0 <= i < |w| && 0 <= j < |w| && i != j ==> w[i] != w[j] && (Under(t, w[i], w[j]) ==> i < j)
  }

  /** No node of `b` is a node of `a` or lies above one. */
  ghost predicate Apart(t: Tree, a: seq<NodeId>, b: seq<NodeId>)
    requires WellFormed(t) && forall j :: 0 <= j < |b| ==> b[j] < |t.nodes|
  {
    forall i, j :: 0 <= i < |a| && 0 <= j < |b| ==> a[i] != b[j] && !Under(t, b[j], a[i])
  }

  lemma AncestorsFirstConcat(t: Tree, a: seq<NodeId>, b: seq<NodeId>)
    requires WellFormed(t) && AncestorsFirst(t, a) && AncestorsFirst(t, b) && Apart(t, a, b)
    ensures AncestorsFirst(t, a + b)
  {
    var w := a + b;
    forall i, j | 0 <= i < |w| && 0 <= j < |w| && i != j
      ensures w[i] != w[j] && (Under(t, w[i], w[j]) ==> i < j)
    {
      if i < |a| && j < |a| {
        assert w[i] == a[i] && w[j] == a[j];
      } else if i < |a| {
        assert w[i] == a[i] && w[j] == b[j - |a|];
      } else if j < |a| {
        assert w[i] == b[i - |a|] && w[j] == a[j];
      } else {
        assert w[i] == b[i - |a|] && w[j] == b[j - |a|];
      }
    }
  }

  /**
   * The walk styles every host before any host beneath it, whichever host
   * it starts from, and styles no host twice.
   */
  lemma {:induction false} VisitOrderAncestorsFirst(t: Tree, host: NodeId)
    requires WellFormed(t) && host < |t.nodes|
    ensures AncestorsFirst(t, VisitOrder(t, host))
    decreases |t.nodes| - host, 2, 0
  {
    assert NodeWellFormed(t, host);
    var kids := RootKids(t, host);
    var rest := VisitKids(t, kids, host);
    KidsApart(t, host);
    VisitKidsAncestorsFirst(t, kids, host);
    VisitKidsShape(t, kids, host);
    forall j | 0 <= j < |rest| ensures host != rest[j] && !Under(t, rest[j], host) {
      if Under(t, rest[j], host) {
        UnderForward(t, rest[j], host);
      }
    }
    AncestorsFirstConcat(t, [host], rest);
  }

  lemma {:induction false} VisitKidsAncestorsFirst(t: Tree, kids: seq<NodeId>, lo: NodeId)
    requires WellFormed(t) && lo < |t.nodes|
    requires forall i :: 0 <= i < |kids| ==> lo < kids[i] < |t.nodes| && kids[i] in Links(t, lo)
    requires forall i, j :: 0 <= i < j < |kids| ==> kids[i] != kids[j]
    ensures AncestorsFirst(t, VisitKids(t, kids, lo))
    decreases |t.nodes| - lo, 1, |kids|
  {
    if kids != [] {
      var a, b := VisitChild(t, kids[0]), VisitKids(t, kids[1..], lo);
      VisitChildAncestorsFirst(t, kids[0]);
      VisitKidsAncestorsFirst(t, kids[1..], lo);
      VisitChildShape(t, kids[0]);
      VisitKidsShape(t, kids[1..], lo);
      forall i, j | 0 <= i < |a| && 0 <= j < |b| ensures a[i] != b[j] && !Under(t, b[j], a[i]) {
        assert a[i] in a && b[j] in b;
        var m :| 0 <= m < |kids[1..]| && Under(t, kids[1..][m], b[j]);
        var k := kids[m + 1];
        assert k == kids[1..][m] && k != kids[0];
        SiblingsApart(t, lo, kids[0], k, a[i]);
        if Under(t, b[j], a[i]) {
          UnderTrans(t, k, b[j], a[i]);
        }
      }
      AncestorsFirstConcat(t, a, b);
    }
  }

  lemma {:induction false} VisitChildAncestorsFirst(t: Tree, c: NodeId)
    requires WellFormed(t) && 0 < c < |t.nodes|
    ensures AncestorsFirst(t, VisitChild(t, c))
    decreases |t.nodes| - c, 3, 0
  {
    assert NodeWellFormed(t, c);
    var cs := t.nodes[c].children;
    var a: seq<NodeId> := [];
    var b := VisitKids(t, cs, c);
    KidsApart(t, c);
    VisitKidsAncestorsFirst(t, cs, c);
    VisitKidsShape(t, cs, c);
    if t.nodes[c].shadowRoot.Some? {
      a := VisitOrder(t, c);
      var ks := RootKids(t, c);
      VisitOrderAncestorsFirst(t, c);
      VisitKidsShape(t, ks, c);
      assert a == [c] + VisitKids(t, ks, c);
      forall i, j | 0 <= i < |a| && 0 <= j < |b| ensures a[i] != b[j] && !Under(t, b[j], a[i]) {
        assert b[j] in b;
        var n :| 0 <= n < |cs| && Under(t, cs[n], b[j]);
        if i == 0 {
          if Under(t, b[j], c) {
            UnderForward(t, b[j], c);
          }
        } else {
          assert a[i] in VisitKids(t, ks, c);
          var m :| 0 <= m < |ks| && Under(t, ks[m], a[i]);
          SiblingsApart(t, c, ks[m], cs[n], a[i]);
          if Under(t, b[j], a[i]) {
            UnderTrans(t, cs[n], b[j], a[i]);
          }
        }
      }
    }
    AncestorsFirstConcat(t, a, b);
  }

  /** Every host up the root-host chain of an entry of `w` is in `known` or an earlier entry. */
  ghost predicate HostsEarlier(t: Tree, w: seq<NodeId>, known: set<NodeId>)
    requires WellFormed(t)
  {
    && (forall j :: 0 <= j < |w| ==> w[j] < |t.nodes|)
    && forall j, y :: 0 <= j < |w| && y in HostChain(t, w[j]) ==> y in known || y in w[..j]
  }

  lemma HostsEarlierConcat(t: Tree, a: seq<NodeId>, b: seq<NodeId>, known: set<NodeId>, more: set<NodeId>)
    requires WellFormed(t) && HostsEarlier(t, a, known) && HostsEarlier(t, b, known + more)
    requires forall x :: x in more ==> x in a
    ensures HostsEarlier(t, a + b, known)
  {
    var w := a + b;
    forall j, y | 0 <= j < |w| && y in HostChain(t, w[j]) ensures y in known || y in w[..j] {
      if j < |a| {
        assert w[j] == a[j] && w[..j] == a[..j];
      } else {
        var k := j - |a|;
        assert w[j] == b[k] && w[..j] == a + b[..k];
        assert y in HostChain(t, b[k]);
        assert y in known + more || y in b[..k];
      }
    }
  }

  /**
   * The root-host chain of a host reached by the walk runs through hosts
   * the walk reached before it, then continues as the chain of the host the
   * walk started from.
   */
  lemma {:induction false} VisitOrderHostsEarlier(t: Tree, host: NodeId, known: set<NodeId>)
    requires WellFormed(t) && host < |t.nodes|
    requires forall y :: y in HostChain(t, host) ==> y in known
    ensures HostsEarlier(t, VisitOrder(t, host), known)
    decreases |t.nodes| - host, 2, 0
  {
    assert NodeWellFormed(t, host);
    var kids := RootKids(t, host);
    forall i | 0 <= i < |kids| ensures forall y :: y in HostChain(t, kids[i]) ==> y in known + {host} {
      if host == DocumentOwner {
        assert HostChain(t, kids[i]) == HostChain(t, host);
      } else {
        assert HostChain(t, kids[i]) == [host] + HostChain(t, host);
      }
    }
    VisitKidsHostsEarlier(t, kids, host, known + {host});
    HostsEarlierConcat(t, [host], VisitKids(t, kids, host), known, {host});
  }

  lemma {:induction false} VisitKidsHostsEarlier(t: Tree, kids: seq<NodeId>, lo: NodeId, known: set<NodeId>)
    requires WellFormed(t) && lo < |t.nodes|
    requires forall i :: 0 <= i < |kids| ==> lo < kids[i] < |t.nodes|
    requires forall i, y :: 0 <= i < |kids| && y in HostChain(t, kids[i]) ==> y in known
    ensures HostsEarlier(t, VisitKids(t, kids, lo), known)
    decreases |t.nodes| - lo, 1, |kids|
  {
    if kids != [] {
      var a := VisitChild(t, kids[0]);
      var more := set x | x in a;
      VisitChildHostsEarlier(t, kids[0], known);
      VisitKidsHostsEarlier(t, kids[1..], lo, known + more);
      HostsEarlierConcat(t, a, VisitKids(t, kids[1..], lo), known, more);
    }
  }

  lemma {:induction false} VisitChildHostsEarlier(t: Tree, c: NodeId, known: set<NodeId>)
    requires WellFormed(t) && c < |t.nodes|
    requires forall y :: y in HostChain(t, c) ==> y in known
    ensures HostsEarlier(t, VisitChild(t, c), known)
    decreases |t.nodes| - c, 3, 0
  {
    assert NodeWellFormed(t, c);
    var cs := t.nodes[c].children;
    var a: seq<NodeId> := [];
    if t.nodes[c].shadowRoot.Some? {
      a := VisitOrder(t, c);
      VisitOrderHostsEarlier(t, c, known);
    }
    forall i | 0 <= i < |cs| ensures HostChain(t, cs[i]) == HostChain(t, c) { }
    var more := set x | x in a;
    VisitKidsHostsEarlier(t, cs, c, known + more);
    HostsEarlierConcat(t, a, VisitKids(t, cs, c), known, more);
  }

  /**
   * When the walk reaches a host after the first, that host's style owner
   * was reached earlier in the same walk, or lies outside the walk: it is
   * the document owner or a host up the chain of the host the walk
   * started from.
   */
  lemma {:induction false} VisitOrderOwners(t: Tree, infos: map<NodeId, StyleInfo>, host: NodeId)
    requires WellFormed(t) && host < |t.nodes| && DocumentOwner in infos
    ensures var v := VisitOrder(t, host);
      && (forall j :: 0 <= j < |v| ==> v[j] < |t.nodes|)
      && forall j :: 0 < j < |v| ==>
        var o := StyleOwner(t, infos, v[j]);
        o in v[..j] || (o !in v && (o == DocumentOwner || o in HostChain(t, host)))
  {
    var v := VisitOrder(t, host);
    var chain := HostChain(t, host);
    var known := set y | y in chain;
    VisitOrderHostsEarlier(t, host, known);
    VisitOrderShape(t, host);
    forall j | 0 < j < |v|
      ensures var o := StyleOwner(t, infos, v[j]);
        o in v[..j] || (o !in v && (o == DocumentOwner || o in chain))
    {
      var o := StyleOwner(t, infos, v[j]);
      StyleOwnerIsFirstWithInfo(t, infos, v[j]);
      assert o == DocumentOwner || o in HostChain(t, v[j]);
      if o !in v[..j] {
        assert v[0] in v[..j];
        if o != DocumentOwner {
          assert o in HostChain(t, v[j]);
          assert o in known;
        }
        assert o < host by {
          if o in chain {
            var k :| 0 <= k < |chain| && chain[k] == o;
          }
        }
        forall k | 0 <= k < |v| ensures v[k] != o {
          if k > 0 {
            assert v[k] in v[1..];
          }
        }
      }
    }
  }

  // The walk on the state: what `applyStyle` leaves once the document is settled.

  /**
   * `applyStyle(host, overrides)` after the CustomStyle block: the host
   * step, then `_applyToDescendants` over the children under its root.
   */
  function WalkHost(s: State, env: Env, t: Tree, host: NodeId, overrides: Props): (r: State)
    requires WellFormed(t) && host < |t.nodes| && Inv(s)
    ensures Inv(r) && r.documentDirty == s.documentDirty
    decreases |t.nodes| - host, 2, 0
  {
    assert NodeWellFormed(t, host);
    WalkKids(HostStepF(s, env, t, host, overrides), env, t, RootKids(t, host), host)
  }

  /** `_applyToDescendants`: the children first to last, the state threaded through. */
  function WalkKids(s: State, env: Env, t: Tree, kids: seq<NodeId>, lo: NodeId): (r: State)
    requires WellFormed(t) && lo < |t.nodes| && Inv(s)
    requires forall i :: 0 <= i < |kids| ==> lo < kids[i] < |t.nodes|
    ensures Inv(r) && r.documentDirty == s.documentDirty
    decreases |t.nodes| - lo, 1, |kids|
  {
    if kids == [] then s else WalkKids(WalkChild(s, env, t, kids[0]), env, t, kids[1..], lo)
  }

  /** One child: `applyStyle(c)` with no overrides when it has a shadow root, then its light children. */
  function WalkChild(s: State, env: Env, t: Tree, c: NodeId): (r: State)
    requires WellFormed(t) && c < |t.nodes| && Inv(s)
    ensures Inv(r) && r.documentDirty == s.documentDirty
    decreases |t.nodes| - c, 3, 0
  {
    assert NodeWellFormed(t, c);
    var s1 := if t.nodes[c].shadowRoot.Some? then WalkHost(s, env, t, c, map[]) else s;
    WalkKids(s1, env, t, t.nodes[c].children, c)
  }

  /**
   * The walk resolves exactly the hosts of the reference order, in that
   * order; it never drops a record or touches one of a node before the
   * host, and leaves the host's record as the host step made it.
   */
  lemma {:induction false} WalkHostTrace(s: State, env: Env, t: Tree, host: NodeId, overrides: Props)
    requires WellFormed(t) && host < |t.nodes| && Inv(s)
    ensures var r, h := WalkHost(s, env, t, host, overrides), HostStepF(s, env, t, host, overrides);
      && r.resolved == s.resolved + VisitOrder(t, host)
      && KeysGrow(s.infos, r.infos) && KeptBelow(s.infos, r.infos, host)
      && host in r.infos && r.infos[host] == h.infos[host]
    decreases |t.nodes| - host, 2, 0
  {
    assert NodeWellFormed(t, host);
    var h := HostStepF(s, env, t, host, overrides);
    HostStepResult(s, env, t, host, overrides);
    var kids := RootKids(t, host);
    WalkKidsTrace(h, env, t, kids, host);
    AppendAssoc(s.resolved, [host], VisitKids(t, kids, host));
  }

  lemma {:induction false} WalkKidsTrace(s: State, env: Env, t: Tree, kids: seq<NodeId>, lo: NodeId)
    requires WellFormed(t) && lo < |t.nodes| && Inv(s)
    requires forall i :: 0 <= i < |kids| ==> lo < kids[i] < |t.nodes|
    ensures var r := WalkKids(s, env, t, kids, lo);
      && r.resolved == s.resolved + VisitKids(t, kids, lo)
      && KeysGrow(s.infos, r.infos) && KeptBelow(s.infos, r.infos, lo + 1)
    decreases |t.nodes| - lo, 1, |kids|
  {
    if kids != [] {
      var c := WalkChild(s, env, t, kids[0]);
      WalkChildTrace(s, env, t, kids[0]);
      WalkKidsTrace(c, env, t, kids[1..], lo);
      AppendAssoc(s.resolved, VisitChild(t, kids[0]), VisitKids(t, kids[1..], lo));
    }
  }

  lemma {:induction false} WalkChildTrace(s: State, env: Env, t: Tree, c: NodeId)
    requires WellFormed(t) && c < |t.nodes| && Inv(s)
    ensures var r := WalkChild(s, env, t, c);
      && r.resolved == s.resolved + VisitChild(t, c)
      && KeysGrow(s.infos, r.infos) && KeptBelow(s.infos, r.infos, c)
    decreases |t.nodes| - c, 3, 0
  {
    assert NodeWellFormed(t, c);
    var own: seq<NodeId> := [];
    var s1 := s;
    if t.nodes[c].shadowRoot.Some? {
      WalkHostTrace(s, env, t, c, map[]);
      s1 := WalkHost(s, env, t, c, map[]);
      own := VisitOrder(t, c);
    }
    WalkKidsTrace(s1, env, t, t.nodes[c].children, c);
    AppendAssoc(s.resolved, own, VisitKids(t, t.nodes[c].children, c));
  }

  /**
   * `applyStyle` as a whole: the document owner is resolved first when the
   * document was dirty and CustomStyle exists, then the hosts of the
   * reference order. With CustomStyle present the flag ends cleared. The
   * host's record is what the host step made of it, and on a settled
   * document the records of nodes before the host are untouched.
   */
  lemma {:induction false} ApplyStyleTrace(s: State, env: Env, t: Tree, host: NodeId, overrides: Props)
    requires WellFormed(t) && host < |t.nodes| && Inv(s)
    ensures var d := DocumentStepF(s, env, t);
      var r := WalkHost(d, env, t, host, overrides);
      && r.resolved == s.resolved + (if env.hasCustomStyle && s.documentDirty then [DocumentOwner] else []) + VisitOrder(t, host)
      && r.documentDirty == (s.documentDirty && !env.hasCustomStyle)
      && KeysGrow(s.infos, r.infos)
      && host in r.infos && r.infos[host] == HostStepF(d, env, t, host, overrides).infos[host]
      && (Settled(env, s) ==> KeptBelow(s.infos, r.infos, host))
  {
    WalkHostTrace(DocumentStepF(s, env, t), env, t, host, overrides);
  }

  /**
   * `updateStyles` with CustomStyle present resolves the document owner
   * twice in a row: once for the dirty document, once as the host being
   * styled; then the shadow hosts of the document follow in pre-order.
   */
  lemma {:induction false} UpdateStylesTrace(s: State, env: Env, t: Tree, properties: Props)
    requires WellFormed(t) && Inv(s) && env.hasCustomStyle
    ensures var r := WalkHost(DocumentStepF(s.(documentDirty := true), env, t), env, t, DocumentOwner, properties);
      && r.resolved == s.resolved + [DocumentOwner, DocumentOwner] + VisitOrder(t, DocumentOwner)[1..]
      && !r.documentDirty
  {
    var d := DocumentStepF(s.(documentDirty := true), env, t);
    assert d.resolved == s.resolved + [DocumentOwner];
    WalkHostTrace(d, env, t, DocumentOwner, properties);
    VisitOrderShape(t, DocumentOwner);
    HeadTwice(s.resolved, DocumentOwner, VisitOrder(t, DocumentOwner));
  }

  /** A sequence that starts with `x`, appended after `x`, shows `x` twice in a row. */
  lemma HeadTwice(a: seq<NodeId>, x: NodeId, v: seq<NodeId>)
    requires |v| >= 1 && v[0] == x
    ensures a + [x] + v == a + [x, x] + v[1..]
  {
    assert v == [x] + v[1..];
  }

  // What one application of the host step does.

  /**
   * With CustomStyle present and the document dirty, the step records
   * `findStyles` and then `applyStyles` around resolving the document
   * owner, whose properties are recomputed as `_updateProperties` says.
   */
  lemma DocumentStepEffects(s: State, env: Env, t: Tree)
    requires WellFormed(t) && Inv(s) && env.hasCustomStyle && s.documentDirty
    ensures var r := DocumentStepF(s, env, t);
      && r.effects == s.effects + [FindStyles, ApplyCustomStyles]
      && r.infos == UpdatePropertiesF(s, env, t, DocumentOwner).infos
      && r.scopeCounter == s.scopeCounter && r.cache == s.cache
  {
    var s1 := UpdatePropertiesF(s.(effects := s.effects + [FindStyles]), env, t, DocumentOwner);
    assert s1.infos == UpdatePropertiesF(s, env, t, DocumentOwner).infos;
  }

  /**
   * The host step keeps the host's template-derived fields, merges the new
   * overrides over the stored ones (later values win, earlier ones
   * persist), resolves the properties, and scopes the host exactly when it
   * declares own properties: without any, the selector, counters, cache
   * and effect log stay as they were; with some, the host gets a selector
   * and the previous one is passed on. No other host's record changes.
   */
  lemma {:induction false} HostStepResult(s: State, env: Env, t: Tree, host: NodeId, overrides: Props)
    requires WellFormed(t) && host < |t.nodes| && Inv(s)
    ensures var base, r := BaseInfo(s, env, t, host), HostStepF(s, env, t, host, overrides);
      var info := r.infos[host];
      && info.overrideStyleProperties == base.overrideStyleProperties + overrides
      && info.styleRules == base.styleRules && info.ownStylePropertyNames == base.ownStylePropertyNames
      && info.elementName == base.elementName && info.typeExtension == base.typeExtension && info.cssBuild == base.cssBuild
      && info.styleProperties.Some?
      && (forall k :: k in s.infos && k != host ==> r.infos[k] == s.infos[k])
      && (base.ownStylePropertyNames == [] ==>
            info.scopeSelector == base.scopeSelector && r.scopeCounter == s.scopeCounter && r.cache == s.cache && r.effects == s.effects)
      && (base.ownStylePropertyNames != [] ==>
            info.scopeSelector.Some? && r.effects == s.effects + [ApplyScopeSelector(host, info.scopeSelector.value, base.scopeSelector)])
  {
    var s1 := s.(infos := s.infos[host := MergedInfo(s, env, t, host, overrides)]);
    var s2 := UpdatePropertiesF(s1, env, t, host);
    UpdatePropertiesResult(s1, env, t, host);
    if |s2.infos[host].ownStylePropertyNames| > 0 {
      ApplyStylePropertiesFrame(s2, env, t, host);
    }
  }

  /**
   * The host's new property map is the reified cascade against its style
   * owner, with the merged overrides mixed in last.
   */
  lemma {:induction false} HostStepProperties(s: State, env: Env, t: Tree, host: NodeId, overrides: Props)
    requires WellFormed(t) && host < |t.nodes| && Inv(s)
    ensures var base := BaseInfo(s, env, t, host);
      var owner := StyleOwner(t, s.infos[host := base], host);
      var ownerInfo := if owner == host then base else s.infos[owner];
      HostStepF(s, env, t, host, overrides).infos[host].styleProperties == Some(env.reify(LayeredProperties(
        ownerInfo.styleProperties.GetOr(map[]),
        env.hostAndRootPropertiesForScope(host, base.styleRules),
        env.propertyDataFromStyles(ownerInfo.styleRules, host),
        base.overrideStyleProperties + overrides)))
  {
    var base := BaseInfo(s, env, t, host);
    var s1 := s.(infos := s.infos[host := MergedInfo(s, env, t, host, overrides)]);
    StyleOwnerKeys(t, s.infos[host := base], s1.infos, host);
    var s2 := UpdatePropertiesF(s1, env, t, host);
    UpdatePropertiesResult(s1, env, t, host);
    if |s2.infos[host].ownStylePropertyNames| > 0 {
      ApplyStylePropertiesFrame(s2, env, t, host);
    }
  }

  /**
   * A host styled for the first time gets `typeExtension` = its local name
   * exactly when its `is` attribute names another element, and the record
   * carries the registered template's rules and own property names.
   */
  lemma FreshHostInfo(s: State, env: Env, t: Tree, host: NodeId, overrides: Props)
    requires WellFormed(t) && host < |t.nodes| && Inv(s) && host !in s.infos
    ensures var info, n := HostStepF(s, env, t, host, overrides).infos[host], t.nodes[host];
      && info.elementName == IsName(t, host)
      && (info.typeExtension == if n.isAttr.Some? && n.isAttr.value != "" && n.isAttr.value != n.localName then Some(n.localName) else None)
      && info.overrideStyleProperties == overrides
      && (IsName(t, host) in env.templates ==> info.ownStylePropertyNames == env.templates[IsName(t, host)].ownPropertyNames)
  {
    HostStepResult(s, env, t, host, overrides);
  }
}
