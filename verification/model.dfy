/**
 * JavaScript values as far as the engine distinguishes them: the stored and
 * overriding custom-property values, and their truthiness.
 */
module Values {

  /** A property value. Numbers are integers; `NaN` is the one non-integer the truthiness test singles out. */
  datatype Value = Str(s: string) | Num(n: int) | NaN | Bool(b: bool) | Null | Undefined

  /** JavaScript truthiness (ECMA-262 ToBoolean). */
  predicate Truthy(v: Value) {
    match v
    case Str(s) => s != ""
    case Num(n) => n != 0
    case NaN => false
    case Bool(b) => b
    case Null => false
    case Undefined => false
  }

  /**
   * The exceptions the modelled code can raise: a `TypeError` from the
   * script itself, and the two DOMExceptions of the DOMTokenList methods.
   */
  datatype Exception = TypeError | SyntaxError | InvalidCharacterError

  /** A property map, name to value (a JavaScript object used as a dictionary). */
  type Props = map<string, Value>

  /** The override test `v || v === 0`: truthy values and the number zero take effect. */
  predicate TakesEffect(v: Value) {
    Truthy(v) || v == Num(0)
  }
}

/**
 * The composed DOM tree the engine walks, abstracted to node ids. Node `i`
 * is `nodes[i]`; ids follow document creation order, so that a node's light
 * children and shadow-root children come after it and its root host comes
 * before it.
 */
module DomTree {
  import opened Wrappers

  type NodeId = nat

  datatype Node = Node(
    localName: string,
    isAttr: Option<string>,              // the `is` attribute, if present
    shadowRoot: Option<seq<NodeId>>,     // the children of its shadow root, if it has one
    children: seq<NodeId>,               // light children
    rootHost: Option<NodeId>,            // `getRootNode().host`
    classAttr: string)                   // the `class` attribute ("" when absent)

  datatype Tree = Tree(nodes: seq<Node>)

  /** `document.documentElement`, the document-level style owner. */
  const DocumentOwner: NodeId := 0

  /**
   * Node `i`'s links point forward, and its root host agrees with them: a
   * light child shares the node's root, and a child of the node's shadow
   * root has the node as its root host.
   */
  predicate NodeWellFormed(t: Tree, i: nat)
    requires i < |t.nodes|
  {
    var n := t.nodes[i];
    && (forall k :: 0 <= k < |n.children| ==>
          i < n.children[k] < |t.nodes| && t.nodes[n.children[k]].rootHost == n.rootHost)
    && (n.shadowRoot.Some? ==> forall k :: 0 <= k < |n.shadowRoot.value| ==>
          i < n.shadowRoot.value[k] < |t.nodes| && t.nodes[n.shadowRoot.value[k]].rootHost == Some(i))
    && (n.rootHost.Some? ==> n.rootHost.value < i)
  }

  /** The nodes listed under node `p`: its light children, then the children of its shadow root. */
  function Listed(t: Tree, p: NodeId): seq<NodeId>
    requires p < |t.nodes|
  {
    t.nodes[p].children + if t.nodes[p].shadowRoot.Some? then t.nodes[p].shadowRoot.value else []
  }

  /** A node has at most one parent and is listed there once: the composed tree is a forest. */
  predicate ListedOnce(t: Tree) {
    forall p, q, i, j ::
      (0 <= p < |t.nodes| && 0 <= q < |t.nodes| && 0 <= i < |Listed(t, p)| && 0 <= j < |Listed(t, q)|
       && Listed(t, p)[i] == Listed(t, q)[j]) ==> p == q && i == j
  }

  predicate WellFormed(t: Tree) {
    && |t.nodes| > 0
    && (forall i :: 0 <= i < |t.nodes| ==> NodeWellFormed(t, i))
    && ListedOnce(t)
  }

  /** `host.getAttribute('is') || host.localName` */
  function IsName(t: Tree, host: NodeId): (r: string)
    requires host < |t.nodes|
    ensures t.nodes[host].isAttr.Some? && t.nodes[host].isAttr.value != "" ==> r == t.nodes[host].isAttr.value
    ensures r != t.nodes[host].localName ==> t.nodes[host].isAttr == Some(r) && r != ""
  {
    var n := t.nodes[host];
    if n.isAttr.Some? && n.isAttr.value != "" then n.isAttr.value else n.localName
  }

  /** `_isRootOwner` */
  predicate IsRootOwner(node: NodeId) {
    node == DocumentOwner
  }

  /** `root.host && root.host.localName`: the local name of the node's root host, "" when it has none. */
  function RootHostName(t: Tree, node: NodeId): string
    requires WellFormed(t) && node < |t.nodes|
  {
    assert NodeWellFormed(t, node);
    match t.nodes[node].rootHost
    case Some(host) => t.nodes[host].localName
    case None => ""
  }

  /**
   * The children `applyStyle` descends into: the document owner's own
   * children, another host's shadow-root children, or none when the host
   * has no shadow root.
   */
  function RootKids(t: Tree, host: NodeId): (kids: seq<NodeId>)
    requires WellFormed(t) && host < |t.nodes|
    ensures forall i :: 0 <= i < |kids| ==> host < kids[i] < |t.nodes|
  {
    assert NodeWellFormed(t, host);
    if IsRootOwner(host) then t.nodes[host].children
    else if t.nodes[host].shadowRoot.Some? then t.nodes[host].shadowRoot.value
    else []
  }

  /**
   * The links of the composed tree leaving node `a`: its light children,
   * then the children `applyStyle` descends into from it.
   */
  function Links(t: Tree, a: NodeId): (kids: seq<NodeId>)
    requires WellFormed(t) && a < |t.nodes|
    ensures forall i :: 0 <= i < |kids| ==> a < kids[i] < |t.nodes|
  {
    assert NodeWellFormed(t, a);
    t.nodes[a].children + RootKids(t, a)
  }

  /** `x` is `a` itself or lies beneath it: reached from `a` by following links. */
  ghost predicate Under(t: Tree, a: NodeId, x: NodeId)
    requires WellFormed(t) && a < |t.nodes|
    decreases |t.nodes| - a
  {
    a == x || exists i :: 0 <= i < |Links(t, a)| && Under(t, Links(t, a)[i], x)
  }
}

/**
 * The records the engine keeps: per-host StyleInfo, style-cache entries,
 * the log of calls into collaborators, and the collaborators themselves.
 */
module Styling {
  import opened Wrappers
  import opened Values
  import opened DomTree

  /** A parsed rule list; only its identity matters to the collaborators that read it. */
  datatype StyleAst = StyleAst(rules: seq<Rule>)

  /** A rule, or the rule list of a custom style pushed onto the document's list. */
  datatype Rule = CssRule(text: string) | Sheet(ast: StyleAst)

  /** What the template registry holds for a prepared element name. */
  datatype Template = Template(styleAst: StyleAst, ownPropertyNames: seq<string>, cssBuild: string)

  datatype StyleInfo = StyleInfo(
    styleRules: Option<StyleAst>,
    ownStylePropertyNames: seq<string>,
    elementName: string,
    typeExtension: Option<string>,
    cssBuild: string,
    styleProperties: Option<Props>,      // null until the first resolution
    scopeSelector: Option<string>,
    overrideStyleProperties: Props)

  /** A generated `<style>` element. */
  datatype StyleElement = StyleElement(cssText: string)

  /** One `styleCache.store(is, properties, styleElement, scopeSelector)`. */
  datatype CacheEntry = CacheEntry(tag: string, properties: Props, styleElement: StyleElement, scopeSelector: string)

  /** Calls into collaborators whose effect lies outside the engine's own state. */
  datatype Effect =
    | FindStyles                      // CustomStyle.findStyles()
    | ApplyCustomStyles               // CustomStyle.applyStyles()
    | ApplyScopeSelector(host: NodeId, scopeSelector: string, oldScopeSelector: Option<string>)

  datatype HostAndRootProps = HostAndRootProps(hostProps: Props, rootProps: Props)

  /**
   * The collaborators: the template registry, the StyleProperties functions
   * the cascade calls, and whether `window.CustomStyle` is present.
   */
  datatype Env = Env(
    templates: map<string, Template>,
    hostAndRootPropertiesForScope: (NodeId, Option<StyleAst>) -> HostAndRootProps,
    propertyDataFromStyles: (Option<StyleAst>, NodeId) -> Props,
    reify: Props -> Props,
    applyElementStyle: (NodeId, Props, string, Option<StyleElement>) -> StyleElement,
    hasCustomStyle: bool)

  /**
   * The engine's state: the per-tag scope counters, the StyleInfo side
   * table, the style cache, the document-dirty flag, the collaborator-call
   * log and the sequence of hosts whose properties were resolved.
   */
  datatype State = State(
    scopeCounter: map<string, nat>,
    infos: map<NodeId, StyleInfo>,
    cache: seq<CacheEntry>,
    documentDirty: bool,
    effects: seq<Effect>,
    resolved: seq<NodeId>)

  /** `StyleInfo.get(element).scopeSelector`, absent when the element has no StyleInfo. */
  function ScopeSelectorOf(infos: map<NodeId, StyleInfo>, element: NodeId): Option<string> {
    if element in infos then infos[element].scopeSelector else None
  }

  /** The document owner always has its StyleInfo. */
  predicate Inv(s: State) {
    DocumentOwner in s.infos
  }

  /** `new StyleInfo({rules: []})`, the document owner's record. */
  function DocumentOwnerInfo(): StyleInfo {
    StyleInfo(Some(StyleAst([])), [], "", None, "", None, None, map[])
  }

  /** The state at module load; the CustomStyle flag is whatever CustomStyle holds then. */
  function InitialState(documentDirty: bool): (s: State)
    ensures Inv(s)
  {
    State(map[], map[DocumentOwner := DocumentOwnerInfo()], [], documentDirty, [], [])
  }

  /** Document-level recomputation is not pending (or there is no CustomStyle to ask for it). */
  predicate Settled(env: Env, s: State) {
    !env.hasCustomStyle || !s.documentDirty
  }
}
