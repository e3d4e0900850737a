# ShadyCSS custom-property engine (non-native path), in Dafny

This project models the part of `ShadyCSS` (`src/ShadyCSS.js`) that runs
when the browser has neither native CSS custom properties nor native Shadow
DOM. In that mode the engine does the following itself:

- It allocates scope selectors `tag-N` from per-tag counters
  (`_generateScopeSelector`).
- It resolves each host's custom-property map. The owner's map is the
  fallback. The host and root properties and the owner's rules that match
  the host are layered over it, and the overrides are mixed in last
  (`_styleOwnerForNode`, `_updateProperties`, `_mixinOverrideStyles`).
- It reuses a cached stylesheet and its scope selector for hosts whose own
  properties agree, or stores a new one (`_applyStyleProperties`).
- It walks the composed tree in pre-order (`applyStyle`, `_applyToDescendants`),
  recomputing the document owner first when `CustomStyle` reports the document
  dirty (`updateStyles`).
- It rewrites an element's class tokens so the scoping pairs
  `style-scope <name>` and `x-scope <selector>` are derived again on each call
  (`_setElementClassViaClassList`, `_setElementClassViaAttr`).
- It answers `getComputedStyleValue` from the resolved map.

Layout:

- `text.dfy` has `Wrappers` (Option, Result) and `Text`. `Text` holds the
  JavaScript string built-ins the code relies on: `split`, `join`,
  `filter(c => c)`, `trim`, and decimal rendering.
- `model.dfy` has the data:
  - JavaScript values and truthiness;
  - the composed tree as node ids. A well-formed tree is a forest: each node
    is listed under at most one parent, once. A node's root host agrees with
    those lists: a light child shares its parent's root, and a child of a
    shadow root has that root's host as its root host;
  - `StyleInfo` records, cache entries, the engine state, and the collaborators
    (`Env`).
- `composed_tree.dfy`: facts about `Under`, "reached by following light-child
  and shadow-root links". On a well-formed tree the nodes above any node form a
  chain, so the subtrees of two children of one node never meet.
- `scope_selector.dfy`: the counters and the selectors they produce.
- `cascade.dfy`: the style owner, the layered property map, and the override rule.
- `scope_cache.dfy`: the style-cache decision of `_applyStyleProperties`.
- `traversal.dfy`: the steps of `applyStyle` on the state, and the reference
  order of the hosts it reaches.
- `engine.dfy`: `class ShadyCss`. Its fields (`scopeCounter`, the StyleInfo
  side table `infos`, `cache`, `documentDirty`) are updated in place by its
  methods. Each method that changes the engine is proved equal to the state
  function that specifies it. The recursive walk of `applyStyle` is specified
  by `WalkHost`, `WalkKids` and `WalkChild`. The class invariant keeps every
  cached selector one its tag's counter handed out, and no two cached entries
  share a selector.
- `class_scoping.dfy`: the class-token rewriting, with a `ClassList` class for
  an element's DOMTokenList.
- `computed_style.dfy`: `getComputedStyleValue`.

Points where the model follows the code closely:

- **Layer precedence.** `_updateProperties` assigns `hostProps`, then the
  owner's rules matching the host, then `rootProps`. So `rootProps` wins a
  collision (`LayeredProperties`, `LookUp`).
- **Which children are styled.** `_applyToDescendants` calls `applyStyle` on
  every child that has a `shadowRoot`, and walks every child's light children.
  A child is not styled merely because it has a StyleInfo.
- **Errors.** The code throws in four places, and the model returns those errors:
  - `getComputedStyleValue` throws a `TypeError` when the StyleInfo read has no
    resolved map yet, or when the stored value is a truthy non-string.
  - `classList.add` throws on a token containing ASCII whitespace. Such a
    token (a tab, say) survives `split(' ')`.
  - `_transformCustomStyleForDocument` throws a `TypeError` when the document
    owner's record has no rule list.
  - `_setElementClassViaAttr` ends with `element.setAttribute(out)` (line 410).
    With a single argument the call throws a `TypeError` (see "## Findings").
- **Inheritance.** The owner's map becomes the prototype of the new map. The
  model copies the owner's map as the bottom layer instead. Lookups give the
  same answers.

## Model

| member | source | states |
|---|---|---|
| `ScopeSelector.Advance` | src/ShadyCSS.js:37-40 | An allocation raises the tag's counter by exactly one, starting from 0 when the tag is absent. Every other tag's counter is unchanged. |
| `ScopeSelector.FirstSelector` | src/ShadyCSS.js:37-40 | The first allocation for a name returns `name-1`. |
| `ScopeSelector.SelectorInjective` | src/ShadyCSS.js:37-40 | A selector determines the name and number it was built from. |
| `ScopeSelector.NextSelectorFresh` | src/ShadyCSS.js:37-40 | An allocation differs from every selector already handed out, for any tag. |
| `Text.DecimalInjective` | src/ShadyCSS.js:38-39 | Distinct counter values render to distinct digit strings. |
| `Engine.ShadyCss.GenerateScopeSelector` | src/ShadyCSS.js:37-40 | Returns the next selector for the name. Advances only that name's counter. Nothing else in the engine changes. The class invariant is kept. |
| `Engine.ShadyCss.constructor` | src/ShadyCSS.js:29-36 | Empty counters and cache. The document owner already holds an empty StyleInfo. The CustomStyle flag is whatever CustomStyle holds at that moment. The class invariant holds from the start. |
| `DomTree.IsName` | src/ShadyCSS.js:107 | A non-empty `is` attribute names the element. Otherwise the local name does: the name differs from the local name only through a non-empty `is`. |
| `DomTree.IsRootOwner` | src/ShadyCSS.js:202-204 | Holds exactly for the document owner. |
| `DomTree.RootKids` | src/ShadyCSS.js:173-178 | `applyStyle` descends into the document owner's own children, or into another host's shadow-root children, or into nothing. Every one of them comes after the host. |
| `Cascade.StyleOwner` | src/ShadyCSS.js:190-201 | The owner is a node with a StyleInfo. It is the document owner or lies before the node (up its root-host chain). |
| `Cascade.StyleOwnerIsFirstWithInfo` | src/ShadyCSS.js:190-201 | The owner is the first host of the root-host chain that has a StyleInfo, skipping hosts without one. When no host has one, it is the document owner. |
| `Cascade.StyleOwnerKeys` | src/ShadyCSS.js:190-201 | The owner depends only on which hosts have a StyleInfo, not on what those records hold. |
| `Cascade.MixinOverrideStyles` | src/ShadyCSS.js:240-249 | The for-in loop over the overrides computes `MixinOverrides`: each qualifying override is written, and every other key keeps its value. |
| `Cascade.MixinOverridesSpec` | src/ShadyCSS.js:240-249 | An override key is written exactly when its value is truthy or `0`. A null, undefined, `""`, false or NaN override keeps the previous, possibly inherited, value. Keys absent from the overrides are untouched. |
| `Cascade.MixinOverridesIdempotent` | src/ShadyCSS.js:240-249 | Applying the same overrides twice equals applying them once. |
| `Cascade.TakesEffectCases` | src/ShadyCSS.js:244-246 | The overrides that take effect are exactly the values other than null, undefined, `""`, false and NaN. |
| `Cascade.LayeredPropertiesLookUp` | src/ShadyCSS.js:222-239 | Each lookup in the layered map follows one precedence order: a qualifying override, then `rootProps`, then the owner's matching rules, then `hostProps`, then the owner's value. A name no layer sets reads through to the owner's value, and is absent when the owner lacks it. |
| `Cascade.UpdatePropertiesF` | src/ShadyCSS.js:222-239 | Resolving a host keeps the document owner's StyleInfo. |
| `Cascade.UpdatePropertiesResult` | src/ShadyCSS.js:222-239 | The host's `styleProperties` becomes the reified layered map, built against its style owner. The host is recorded as resolved. No other record and no other part of the state changes. |
| `Engine.ShadyCss.UpdateProperties` | src/ShadyCSS.js:222-239 | The in-place update leaves exactly the state `UpdatePropertiesF` describes. |
| `ScopeCache.Fetch` | src/ShadyCSS.js:207 | The cache lookup returns the first entry for the tag whose properties agree on the host's own names. It returns none exactly when no entry does. |
| `ScopeCache.ApplyStylePropertiesF` | src/ShadyCSS.js:205-221 | Scoping a host keeps the document owner's StyleInfo. |
| `ScopeCache.ApplyStylePropertiesFrame` | src/ShadyCSS.js:205-221 | Only the host's scope selector, the counters, the cache and the effect log change. `applyElementScopeSelector` receives the new selector and the previous one. |
| `ScopeCache.ApplyStylePropertiesOnHit` | src/ShadyCSS.js:205-221 | On a hit that carries a selector: the host takes the cached selector, and `applyElementStyle` receives the cached style element. The counters do not move. Nothing is stored. |
| `ScopeCache.ApplyStylePropertiesOnMiss` | src/ShadyCSS.js:205-221 | On a miss, exactly one selector `tag-(n+1)` is allocated, only that tag's counter moves, and exactly one entry is stored: the host's properties, the new style element and the new selector. |
| `ScopeCache.ApplyStylePropertiesFresh` | src/ShadyCSS.js:205-221 | A miss allocates a selector that differs from every selector already in the cache. |
| `ScopeCache.ApplyStylePropertiesKeepsIssued` | src/ShadyCSS.js:205-221 | Every cached selector was handed out by its tag's counter, and scoping preserves this. |
| `ScopeCache.StoreThenFetch` | src/ShadyCSS.js:205-221 | After a miss, a later lookup for the same tag finds the new entry with any properties that agree on the own names. |
| `ScopeCache.CacheScenarioHit` | src/ShadyCSS.js:205-221 | Two `x-a` hosts with `--c: red`: the first misses and gets `x-a-1`. The second hits and gets `x-a-1` too. |
| `ScopeCache.CacheScenario` | src/ShadyCSS.js:205-221 | Hosts with red, red and blue `--c` get `x-a-1`, `x-a-1` and `x-a-2`. Two entries are stored. |
| `ScopeCache.ApplyStylePropertiesKeepsDistinct` | src/ShadyCSS.js:205-221 | When every cached selector was handed out by its counter, scoping never stores a selector that is already cached. |
| `Engine.ShadyCss.ApplyStyleProperties` | src/ShadyCSS.js:205-221 | The in-place update and the returned style element are the ones `ApplyStylePropertiesF` describes. |
| `Traversal.NewStyleInfo` | src/ShadyCSS.js:106-132 | A prepared host's record is named after its `is` name. Its type extension is the local name exactly when that name differs. It carries the template's rules and own names, or none without a template. Its resolved map, selector and overrides start empty. |
| `Engine.ShadyCss.PrepareHost` | src/ShadyCSS.js:106-132 | Stores that record for the host and changes nothing else. |
| `Traversal.FreshHostInfo` | src/ShadyCSS.js:148-152 | A first-time host gets `typeExtension` = its local name exactly when a non-empty `is` attribute names another element. Its overrides are the ones given. |
| `Traversal.DocumentStepF` | src/ShadyCSS.js:135-147 | The CustomStyle block leaves the flag cleared when CustomStyle exists and keeps the StyleInfo keys. It records the document owner as resolved exactly when it was dirty, and does nothing when the document was settled. |
| `Traversal.DocumentStepEffects` | src/ShadyCSS.js:135-147 | A dirty document calls `findStyles`, then resolves the document owner, then calls `applyStyles`, in that order. |
| `Engine.ShadyCss.DocumentStep` | src/ShadyCSS.js:135-147 | The in-place update is `DocumentStepF`. |
| `Traversal.TransformCustomStyleForDocumentF` | src/ShadyCSS.js:268-285 | On the non-native path, the custom style's rule list is appended to the document owner's rule list. A missing list throws a `TypeError`. |
| `Traversal.CustomStyleReachesDocument` | src/ShadyCSS.js:135-147 | Only the document owner's rule list changes. The next dirty-document step resolves the document owner from the extended list: both StyleProperties calls receive it. |
| `Engine.ShadyCss.TransformCustomStyleForDocument` | src/ShadyCSS.js:268-285 | The in-place update, or the thrown error with the state unchanged, is what `TransformCustomStyleForDocumentF` says. |
| `Traversal.HostStepF` | src/ShadyCSS.js:148-172 | The host step leaves the host with a StyleInfo, adds no other record, and records the host as resolved. |
| `Traversal.HostStepResult` | src/ShadyCSS.js:148-172 | New overrides are merged over the stored ones, which persist across calls. The template fields are kept. The map is resolved. The host is scoped exactly when it has own property names: otherwise the selector, counters, cache and effects are unchanged. No other host's record changes. |
| `Traversal.HostStepProperties` | src/ShadyCSS.js:148-172 | The host's new map is the reified cascade against its style owner, with the accumulated overrides mixed in last. |
| `Engine.ShadyCss.HostStep` | src/ShadyCSS.js:148-172 | The in-place update is `HostStepF`. |
| `Traversal.VisitKidsSnoc` | src/ShadyCSS.js:180-189 | The children are handled in index order: the last child's hosts come after all the others'. |
| `Traversal.VisitOrderShape` | src/ShadyCSS.js:173-189 | The walk starts with the host itself. Every later host has a shadow root of its own and lies beneath the host: it is reached from the host by following light-child and shadow-root links (`Under`). |
| `Traversal.VisitOrderAncestorsFirst` | src/ShadyCSS.js:173-189 | Whichever host the walk starts from, it reaches no node twice. For any two entries where one lies beneath the other, the one above is styled first. |
| `Traversal.VisitOrderOwners` | src/ShadyCSS.js:173-201 | When the walk reaches a host after the first, that host's style owner is either a host the same walk reached earlier, or outside the walk: the document owner, or a host up the root-host chain of the starting host. So a host's owner is resolved before the host within one walk. |
| `Traversal.VisitOrderHostsEarlier` | src/ShadyCSS.js:173-201 | Every host up the root-host chain of a walked host was walked earlier, or is up the chain of the starting host. |
| `Traversal.VisitKidsShape` | src/ShadyCSS.js:180-189 | Every host reached from a node's children has a shadow root, comes after the node, and lies beneath one of those children. |
| `Traversal.VisitChildShape` | src/ShadyCSS.js:180-189 | A child contributes only itself (when it has a shadow root) and hosts beneath it, reached by links from it. |
| `Traversal.WalkHostTrace` | src/ShadyCSS.js:148-189 | The walk from a host resolves exactly the hosts of `VisitOrder`, in that order. It never drops a record or changes one of a node before the host. It leaves the host's record as the host step made it. |
| `Traversal.WalkKidsTrace` | src/ShadyCSS.js:180-189 | The walk over the children resolves exactly the hosts of `VisitKids`, in order. Records at or before the parent are untouched. |
| `Traversal.WalkChildTrace` | src/ShadyCSS.js:182-187 | One child resolves exactly the hosts of `VisitChild`. Records before the child are untouched. |
| `Traversal.ApplyStyleTrace` | src/ShadyCSS.js:133-179 | The resolutions come in this order: the document owner when it was dirty and CustomStyle exists, then the hosts of `VisitOrder`. With CustomStyle present the flag ends cleared. The host's record is what the host step makes of it. With a settled document, records of earlier nodes are untouched. |
| `Traversal.UpdateStylesTrace` | src/ShadyCSS.js:261-266 | With CustomStyle present, the document owner is resolved twice in a row: once as the dirty document, then as the host being styled. The shadow hosts of the document follow in pre-order. |
| `Engine.ShadyCss.ApplyStyle` | src/ShadyCSS.js:133-179 | The whole new state is `WalkHost` applied after `DocumentStepF`: the counters, cache, effect log and every record the walk touches, with `overrides` given to the top host. The class invariant is kept, so no selector is cached twice. |
| `Engine.ShadyCss.ApplyToDescendants` | src/ShadyCSS.js:180-189 | The loop over the children leaves exactly the state `WalkKids` describes. |
| `Engine.ShadyCss.ApplyToChild` | src/ShadyCSS.js:182-187 | One child leaves exactly the state `WalkChild` describes: it is styled with no overrides when it has a shadow root, and then its light children are walked. |
| `Engine.ShadyCss.UpdateStyles` | src/ShadyCSS.js:261-266 | The document is marked dirty when CustomStyle exists. Then the whole new state is `WalkHost` from the document owner, with `properties` as its overrides. |
| `ClassScoping.ScopePairs` | src/ShadyCSS.js:396-404 | The scope pair `style-scope <scope>` comes first exactly when a scope name is known. The pair `x-scope <selector>` closes the list exactly when the element has a non-empty selector. There is nothing else. |
| `ClassScoping.StripScopingClean` | src/ShadyCSS.js:371-382 | No `style-scope` or `x-scope` marker survives the cleaning loop, and only tokens of the input do. |
| `ClassScoping.StripScopingMarkerFree` | src/ShadyCSS.js:371-382 | Tokens without markers pass through unchanged and in order. |
| `ClassScoping.StripScopingIdempotent` | src/ShadyCSS.js:371-382 | Cleaning twice is cleaning once. |
| `ClassScoping.StripScopingPairs` | src/ShadyCSS.js:371-405 | Cleaning the written tokens gives back the user's tokens: the appended pairs are exactly what is dropped. |
| `ClassScoping.CleanClassString` | src/ShadyCSS.js:371-382 | The loop with its manual `i++` skip drops each marker and the token after it, keeping the rest in order. |
| `ClassScoping.TokenAfterFirst` | src/ShadyCSS.js:384-395 | With no `style-scope` token, no scope is discovered. |
| `ClassScoping.TokenAfterFirstAt` | src/ShadyCSS.js:388-393 | The discovered scope is the token right after the first `style-scope`, or undefined when that is the last token. |
| `ClassScoping.FindScopeName` | src/ShadyCSS.js:384-395 | The loop with `break` finds exactly that token. |
| `ClassScoping.ClassAttrOut` | src/ShadyCSS.js:365-405 | The string `_setElementClassViaAttr` computes: the cleaned user tokens and the re-derived pairs, joined by single spaces. Its properties are stated by `StripScopingPairs` and `ClassAttrOutStable`. |
| `ClassScoping.ClassAttrOutStable` | src/ShadyCSS.js:365-405 | Writing is a fixed point: calling again with the written string as both the class string and the class attribute produces the same string. This holds when the scope name and selector contain no whitespace. |
| `Engine.ShadyCss.SetElementClassViaAttr` | src/ShadyCSS.js:365-405 | The string computed is the cleaned user tokens followed by the scoping pairs, joined by spaces. The scope is the root host's local name, else the one discovered in the class attribute. The selector comes from the element's StyleInfo. |
| `ClassScoping.WriteClassAttrAsWrittenLosesOut` | src/ShadyCSS.js:407-411 | Without `__nativeSetAttribute`, the computed class string is not written (see Findings). |
| `ClassScoping.WriteClassAttrStable` | src/ShadyCSS.js:405-411 | With the intended two-argument write, the element's class attribute is the computed string, and styling it again leaves that string unchanged. |
| `ClassScoping.TokenError` | src/ShadyCSS.js:333-363 | DOMTokenList `add`/`remove` accept a token exactly when it is non-empty and has no ASCII whitespace. |
| `ClassScoping.Without` | src/ShadyCSS.js:343 | `remove(k)` keeps exactly the other tokens. |
| `ClassScoping.WithoutFirst` | src/ShadyCSS.js:333-344 | Removing the first token of the list leaves the rest of the list. |
| `ClassScoping.ClassList.Add` | src/ShadyCSS.js:361 | `add` throws on an invalid token. Otherwise it appends the token unless it is already present. |
| `ClassScoping.ClassList.Remove` | src/ShadyCSS.js:343 | `remove` throws on an invalid token. Otherwise it removes every occurrence, and the list stays a set of valid tokens. |
| `ClassScoping.CapturedScope` | src/ShadyCSS.js:333-344 | The scope the clearing loop ends with: a known scope is kept, and with no `style-scope` token none is captured. |
| `ClassScoping.CapturedScopeSpec` | src/ShadyCSS.js:333-344 | The clearing loop keeps a known scope name. Otherwise it captures the token after `style-scope` in the old list. |
| `ClassScoping.ClearClassList` | src/ShadyCSS.js:333-344 | The clearing loop terminates, because each pass shortens the list. It ends with an empty list and the captured scope name. |
| `ClassScoping.AddAll` | src/ShadyCSS.js:358-363 | Adding succeeds exactly when every token is valid. |
| `ClassScoping.AddAllSet` | src/ShadyCSS.js:358-363 | When every token is valid, the list ends as a duplicate-free list of exactly the old tokens and the added ones, with the old ones first. |
| `ClassScoping.AddAllFresh` | src/ShadyCSS.js:358-363 | Distinct new tokens are appended in order. |
| `ClassScoping.AddClasses` | src/ShadyCSS.js:358-363 | The adding loop stops at the first token that throws. The tokens before it stay added. |
| `ClassScoping.TabInClassString` | src/ShadyCSS.js:346-361 | A class string `"a\tb"` survives `split(' ')` as one token, and `add` throws InvalidCharacterError on it. |
| `Engine.ShadyCss.SetElementClassViaClassList` | src/ShadyCSS.js:328-364 | The final list, and any exception, are those of adding the non-empty space-split user tokens, then the scope pair, then the property-scope pair, to an emptied list. The scope is the root host's local name, else the one captured while emptying. |
| `ComputedStyle.GetComputedStyleValue` | src/ShadyCSS.js:298-310 | A successful result never begins or ends with whitespace. |
| `ComputedStyle.GetComputedStyleValueCases` | src/ShadyCSS.js:298-310 | The call throws a `TypeError` exactly when nothing is resolved yet, or when the stored value is a truthy non-string. A non-empty stored string is returned trimmed. Otherwise the platform's value is returned trimmed. |
| `ComputedStyle.GetComputedStyleValueFromOwner` | src/ShadyCSS.js:302 | An element without a StyleInfo reads its style owner's values. |
| `ComputedStyle.GetComputedStyleValuePadding` | src/ShadyCSS.js:307-309 | A stored `" 2px"` is returned as `"2px"`. |
| `Text.TrimSpec` | src/ShadyCSS.js:309 | `trim` returns a slice of its input. Everything cut off is whitespace, and the result neither starts nor ends with whitespace. |
| `Text.TrimIdempotent` | src/ShadyCSS.js:309 | Trimming twice is trimming once. |
| `Text.SplitJoin` | src/ShadyCSS.js:372-405 | Splitting a space-joined list of whitespace-free tokens gives the list back. |

## Left out

- DOM and template I/O are not modelled:
  - `prepareTemplate`, `_gatherStyles`, `_getCssBuild`, `_generateStaticStyle`;
  - the mutation of template content;
  - the `instanceof SVGElement` dispatch in `setElementClass`.
  The template registry is an input (`Env.templates`).
- The collaborators are opaque functions given to the engine, and their
  internals are not modelled: `hostAndRootPropertiesForScope`,
  `propertyDataFromStyles`, `reify` and `applyElementStyle`.
  `applyElementScopeSelector`, `CustomStyle.findStyles` and
  `CustomStyle.applyStyles` are recorded in an effect log.
- `placeholderMap` is not part of this model. The placeholder only reaches
  the StyleInfo, and nothing modelled reads it.
- `style-cache.js` is not part of this model. Its lookup is modelled as the
  first stored entry with the same tag whose properties agree on the host's
  own property names. Entries are never evicted.
- The native branches are not modelled (`nativeCss` and `nativeShadow` are
  taken as false):
  - lines 153-166;
  - `_updateNativeProperties`;
  - the native and shady-DOM branches of `_transformCustomStyleForDocument`;
  - `_revalidateApplyShim`, which does nothing on this path.
- The `StyleTransformer.documentRule` rewriting of each custom-style rule is
  not modelled. `TransformCustomStyleForDocument` receives the rules already
  rewritten.
- The engine's state does not record that `CustomStyle.findStyles` calls
  `_transformCustomStyleForDocument` for each custom style, because
  CustomStyle is not part of this model. `CustomStyleReachesDocument` shows
  the effect of such a call on the next document resolution.
- `_applyCustomStyleToDocument` is not modelled. On this path it calls
  `StyleProperties.applyCustomStyle` on the custom style element, which lies
  outside the engine's state.
- `window.getComputedStyle` becomes the `platformValue` parameter of
  `GetComputedStyleValue`.
- The attribute write at the end of `_setElementClassViaAttr` is not modelled
  as a DOM write. `SetElementClassViaAttr` returns the computed class string,
  and the write is modelled by `WriteClassAttr`.
- `StyleInfo.set`/`get` on DOM nodes becomes a map from node id to StyleInfo.
  Aliasing between DOM objects is not modelled.
- `Cascade.MixinOverrideStyles` visits the override keys in an arbitrary
  order, not JavaScript's for-in order. The result does not depend on the order.
- Property values are modelled as strings, integers, NaN, booleans, null and
  undefined. Fractional numbers are not distinguished.
- The StyleInfo's `cssBuild` is copied from the template's own `cssBuild`
  field. `prepareTemplate` never sets `template._cssBuild`, but that function
  is not part of this model.
- The DOMTokenList's serialisation back to the `class` attribute is not modelled.
- `ScopeSelector.Advance` and `ScopeSelector.NextSelectorFresh` use an unbounded
  counter. In the code, `(this.scopeCounter[name] || 0) + 1` is a JavaScript
  number. It stops growing at 2^53, since 2^53 + 1 rounds back to 2^53. From
  then on `_generateScopeSelector` would return the same selector again. The
  freshness of selectors, and the cache's `SelectorsDistinct` invariant, hold
  only below 2^53 allocations per tag.

## Findings

| source | as written | input that shows it | evidently intended | confidence | as-written member | corrected member |
|---|---|---|---|---|---|---|
| src/ShadyCSS.js:410 | `element.setAttribute(out)` passes only the class string. An Element's `setAttribute` takes a name and a value, so the call throws a TypeError, and the class attribute is not written. | An SVG element without `classList`, with no `__nativeSetAttribute`. | `element.setAttribute('class', out)`, as on line 408. | medium, not executed | `ClassScoping.WriteClassAttrAsWrittenLosesOut` | `ClassScoping.WriteClassAttrStable` |
