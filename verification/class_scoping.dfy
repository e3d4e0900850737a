/**
 * `setElementClass`: the user's class tokens are written to an element
 * together with the scoping pairs `style-scope <scope name>` and
 * `x-scope <scope selector>`, which are re-derived on every call rather
 * than taken from the user's string.
 */
module ClassScoping {
  import opened Wrappers
  import opened Text
  import opened Values

  /** `StyleTransformer.SCOPE_NAME` */
  const ScopeName := "style-scope"
  /** `StyleProperties.XSCOPE_NAME` */
  const XScopeName := "x-scope"

  predicate IsMarker(k: string) {
    k == ScopeName || k == XScopeName
  }

  /**
   * The scoping pairs appended after the user's tokens: the scope pair when
   * a scope name is known (non-empty), then the property-scope pair when the
   * element's StyleInfo holds a non-empty scope selector.
   */
  function ScopePairs(scope: string, selector: Option<string>): (r: seq<string>)
    ensures |r| % 2 == 0
    ensures scope != "" <==> |r| >= 2 && r[0] == ScopeName
    ensures scope != "" ==> r[1] == scope
    ensures forall i :: 0 <= i < |r| && i % 2 == 0 ==> IsMarker(r[i])
    ensures |r| == (if scope != "" then 2 else 0) + (if selector.Some? && selector.value != "" then 2 else 0)
    ensures selector.Some? && selector.value != "" ==> r[|r| - 2..] == [XScopeName, selector.value]
  {
    (if scope != "" then [ScopeName, scope] else [])
    + (if selector.Some? && selector.value != "" then [XScopeName, selector.value] else [])
  }

  // The attribute path, `_setElementClassViaAttr`.

  /**
   * The cleaning loop from position `i` on: a marker token is dropped
   * together with the token after it, every other token is kept.
   */
  function StripFrom(ks: seq<string>, i: nat): seq<string>
    decreases |ks| - i
  {
    if i >= |ks| then []
    else if IsMarker(ks[i]) then StripFrom(ks, i + 2)
    else [ks[i]] + StripFrom(ks, i + 1)
  }

  /** The user's tokens without the scoping pairs they carried. */
  function StripScoping(ks: seq<string>): seq<string> {
    StripFrom(ks, 0)
  }

  /** No scoping marker survives the cleaning, and only tokens of the input do. */
  lemma StripScopingClean(ks: seq<string>)
    ensures forall k :: k in StripScoping(ks) ==> !IsMarker(k) && k in ks
  {
    StripFromClean(ks, 0);
  }

  lemma {:induction false} StripFromClean(ks: seq<string>, i: nat)
    ensures forall k :: k in StripFrom(ks, i) ==> !IsMarker(k) && k in ks
    decreases |ks| - i
  {
    if i < |ks| {
      if IsMarker(ks[i]) {
        StripFromClean(ks, i + 2);
      } else {
        StripFromClean(ks, i + 1);
      }
    }
  }

  lemma {:induction false} StripFromMarkerFree(ks: seq<string>, i: nat)
    requires i <= |ks| && forall j :: 0 <= j < |ks| ==> !IsMarker(ks[j])
    ensures StripFrom(ks, i) == ks[i..]
    decreases |ks| - i
  {
    if i < |ks| {
      StripFromMarkerFree(ks, i + 1);
      assert ks[i..] == [ks[i]] + ks[i + 1..];
    }
  }

  /** Tokens without markers pass the cleaning unchanged. */
  lemma StripScopingMarkerFree(ks: seq<string>)
    requires forall j :: 0 <= j < |ks| ==> !IsMarker(ks[j])
    ensures StripScoping(ks) == ks
  {
    StripFromMarkerFree(ks, 0);
  }

  /** Cleaning twice is cleaning once. */
  lemma StripScopingIdempotent(ks: seq<string>)
    ensures StripScoping(StripScoping(ks)) == StripScoping(ks)
  {
    var once := StripScoping(ks);
    StripScopingClean(ks);
    assert forall j :: 0 <= j < |once| ==> once[j] in once;
    StripScopingMarkerFree(once);
  }

  lemma {:induction false} StripFromPairs(ps: seq<string>, i: nat)
    requires |ps| % 2 == 0 && i % 2 == 0
    requires forall j :: 0 <= j < |ps| && j % 2 == 0 ==> IsMarker(ps[j])
    ensures StripFrom(ps, i) == []
    decreases |ps| - i
  {
    if i < |ps| {
      StripFromPairs(ps, i + 2);
    }
  }

  lemma {:induction false} StripFromAppend(xs: seq<string>, ys: seq<string>, i: nat)
    requires i <= |xs| && forall j :: 0 <= j < |xs| ==> !IsMarker(xs[j])
    ensures StripFrom(xs + ys, i) == xs[i..] + StripFrom(ys, 0)
    decreases |xs| - i
  {
    if i < |xs| {
      StripFromAppend(xs, ys, i + 1);
      assert xs[i..] == [xs[i]] + xs[i + 1..];
    } else {
      StripFromShift(xs, ys, 0);
    }
  }

  lemma {:induction false} StripFromShift(xs: seq<string>, ys: seq<string>, i: nat)
    ensures StripFrom(xs + ys, |xs| + i) == StripFrom(ys, i)
    decreases |ys| - i
  {
    if i < |ys| {
      assert (xs + ys)[|xs| + i] == ys[i];
      StripFromShift(xs, ys, i + 1);
      StripFromShift(xs, ys, i + 2);
    }
  }

  /** Cleaning the written tokens gives back the user's tokens: the appended pairs are exactly what is dropped. */
  lemma {:induction false} StripScopingPairs(xs: seq<string>, scope: string, selector: Option<string>)
    requires forall j :: 0 <= j < |xs| ==> !IsMarker(xs[j])
    ensures StripScoping(xs + ScopePairs(scope, selector)) == xs
  {
    var ps := ScopePairs(scope, selector);
    StripFromAppend(xs, ps, 0);
    StripFromPairs(ps, 0);
    assert xs[0..] + [] == xs;
  }

  /**
   * The token after the first occurrence of `marker`, or "" when there is
   * none or `marker` is the last token (`k$[i+1]` is then undefined).
   */
  function TokenAfterFirst(ks: seq<string>, marker: string): (r: string)
    ensures (forall j :: 0 <= j < |ks| ==> ks[j] != marker) ==> r == ""
  {
    if ks == [] then ""
    else if ks[0] == marker then (if |ks| > 1 then ks[1] else "")
    else TokenAfterFirst(ks[1..], marker)
  }

  /** The token found is the one right after the first occurrence of the marker. */
  lemma {:induction false} TokenAfterFirstAt(ks: seq<string>, marker: string, i: nat)
    requires i < |ks| && ks[i] == marker && forall j :: 0 <= j < i ==> ks[j] != marker
    ensures TokenAfterFirst(ks, marker) == if i + 1 < |ks| then ks[i + 1] else ""
  {
    if i > 0 {
      TokenAfterFirstAt(ks[1..], marker, i - 1);
    }
  }

  /** `classString.split(/\s/)` when `classString` is truthy, nothing otherwise. */
  function AttrTokens(classString: string): seq<string> {
    if classString == "" then [] else Split(classString, IsJsSpace)
  }

  /**
   * The scope name: the root host's local name when there is a root host,
   * otherwise the token after the first `style-scope` in the current class
   * attribute ("" when there is none).
   */
  function DiscoverScope(rootScope: string, classAttr: string): string {
    if rootScope != "" then rootScope else TokenAfterFirst(AttrTokens(classAttr), ScopeName)
  }

  /** `out`: the cleaned user tokens, then the scoping pairs, joined by single spaces. */
  function ClassAttrOut(classString: string, rootScope: string, classAttr: string, selector: Option<string>): string {
    Join(StripScoping(AttrTokens(classString)) + ScopePairs(DiscoverScope(rootScope, classAttr), selector), " ")
  }

  predicate NoJsSpace(s: string) {
    forall i :: 0 <= i < |s| ==> !IsJsSpace(s[i])
  }

  /** The scope name found holds no whitespace when the root host's name holds none. */
  lemma DiscoverScopeNoSpace(rootScope: string, classAttr: string)
    requires NoJsSpace(rootScope)
    ensures NoJsSpace(DiscoverScope(rootScope, classAttr))
  {
    if rootScope == "" && classAttr != "" {
      TokenAfterFirstIn(Split(classAttr, IsJsSpace), ScopeName);
    }
  }

  /** The cleaned user tokens hold neither whitespace nor markers. */
  lemma CleanTokens(classString: string)
    ensures var xs := StripScoping(AttrTokens(classString));
      forall j :: 0 <= j < |xs| ==> NoJsSpace(xs[j]) && !IsMarker(xs[j])
  {
    var xs := StripScoping(AttrTokens(classString));
    StripScopingClean(AttrTokens(classString));
    forall j | 0 <= j < |xs| ensures NoJsSpace(xs[j]) && !IsMarker(xs[j]) {
      assert xs[j] in xs;
    }
  }

  /** Behind marker-free tokens, the scope discovered is the one of the appended pair. */
  lemma {:induction false} DiscoverAppendedScope(xs: seq<string>, scope: string, selector: Option<string>)
    requires forall j :: 0 <= j < |xs| ==> !IsMarker(xs[j])
    ensures TokenAfterFirst(xs + ScopePairs(scope, selector), ScopeName) == scope
  {
    var ps := ScopePairs(scope, selector);
    var all := xs + ps;
    assert forall j :: 0 <= j < |xs| ==> all[j] != ScopeName;
    if scope != "" {
      TokenAfterFirstAt(all, ScopeName, |xs|);
    } else if ps != [] && ps[1] == ScopeName {
      TokenAfterFirstAt(all, ScopeName, |xs| + 1);
    } else {
      assert forall j :: 0 <= j < |ps| ==> ps[j] != ScopeName;
      assert forall j :: 0 <= j < |all| ==> all[j] != ScopeName;
    }
  }

  /** The scoping pairs hold no whitespace when the scope name and selector hold none. */
  lemma PairsNoSpace(scope: string, selector: Option<string>)
    requires NoJsSpace(scope) && (selector.Some? ==> NoJsSpace(selector.value))
    ensures forall k :: 0 <= k < |ScopePairs(scope, selector)| ==> NoJsSpace(ScopePairs(scope, selector)[k])
  {
    assert NoJsSpace(ScopeName) && NoJsSpace(XScopeName);
  }

  /**
   * Writing is a fixed point: calling again with the written string as the
   * class string, and as the element's class attribute, writes the same
   * string, as long as the scope name and selector hold no whitespace.
   */
  lemma {:induction false} ClassAttrOutStable(classString: string, rootScope: string, classAttr: string, selector: Option<string>)
    requires NoJsSpace(rootScope) && (selector.Some? ==> NoJsSpace(selector.value))
    ensures var out := ClassAttrOut(classString, rootScope, classAttr, selector);
      ClassAttrOut(out, rootScope, out, selector) == out
  {
    var xs := StripScoping(AttrTokens(classString));
    var scope := DiscoverScope(rootScope, classAttr);
    var ps := ScopePairs(scope, selector);
    var all := xs + ps;
    var out := Join(all, " ");
    assert out == ClassAttrOut(classString, rootScope, classAttr, selector);
    if out == "" {
      JoinEmpty(all, " ");
      assert ps == [];
      assert rootScope == "";
      assert ClassAttrOut(out, rootScope, out, selector) == Join([] + ScopePairs("", selector), " ");
    } else {
      DiscoverScopeNoSpace(rootScope, classAttr);
      CleanTokens(classString);
      PairsNoSpace(scope, selector);
      forall k | 0 <= k < |all| ensures NoJsSpace(all[k]) {
        if k >= |xs| {
          assert all[k] == ps[k - |xs|];
        }
      }
      SplitJoin(all, IsJsSpace);
      assert AttrTokens(out) == all;
      StripScopingPairs(xs, scope, selector);
      DiscoverAppendedScope(xs, scope, selector);
      assert DiscoverScope(rootScope, out) == scope;
    }
  }

  /** The token found is one of the tokens, or "". */
  lemma {:induction false} TokenAfterFirstIn(ks: seq<string>, marker: string)
    ensures TokenAfterFirst(ks, marker) == "" || TokenAfterFirst(ks, marker) in ks
  {
    if ks != [] && ks[0] != marker {
      TokenAfterFirstIn(ks[1..], marker);
    }
  }

  // The class-list path, `_setElementClassViaClassList`, over a DOMTokenList.

  /** The cleaning loop of `_setElementClassViaAttr`, with its manual skip past the token after a marker. */
  method CleanClassString(classString: string) returns (classes: seq<string>)
    ensures classes == StripScoping(AttrTokens(classString))
  {
    classes := [];
    if classString != "" {
      var ks := Split(classString, IsJsSpace);
      var i := 0;
      while i < |ks|
        invariant classes + StripFrom(ks, i) == StripScoping(ks)
        decreases |ks| - i
      {
        var k := ks[i];
        if k == ScopeName || k == XScopeName {
          assert StripFrom(ks, i) == StripFrom(ks, i + 2);
          i := i + 1;
        } else {
          assert StripFrom(ks, i) == [k] + StripFrom(ks, i + 1);
          AppendAssoc(classes, [k], StripFrom(ks, i + 1));
          classes := classes + [k];
        }
        i := i + 1;
      }
    }
  }

  /** The scope-discovery loop of `_setElementClassViaAttr`: the token after the first `style-scope` of the class attribute. */
  method FindScopeName(classAttr: string) returns (scopeName: string)
    ensures scopeName == TokenAfterFirst(AttrTokens(classAttr), ScopeName)
  {
    scopeName := "";
    if classAttr != "" {
      var ks := Split(classAttr, IsJsSpace);
      for i := 0 to |ks|
        invariant scopeName == "" && TokenAfterFirst(ks[i..], ScopeName) == TokenAfterFirst(ks, ScopeName)
      {
        if ks[i] == ScopeName {
          scopeName := if i + 1 < |ks| then ks[i + 1] else "";
          return;
        }
        assert ks[i..][1..] == ks[i + 1..];
      }
    }
  }

  // The attribute write that ends `_setElementClassViaAttr`.

  /**
   * The write as the code has it: `__nativeSetAttribute('class', out)` when
   * that is provided, otherwise `setAttribute(out)`. An Element's
   * `setAttribute` takes a name and a value, so the one-argument call
   * throws a TypeError. The result is the class attribute written.
   */
  function WriteClassAttrAsWritten(nativeSetAttribute: bool, out: string): Result<string, Exception> {
    if nativeSetAttribute then Ok(out) else Err(TypeError)
  }

  /** Without the native setter, the class string computed is never written. */
  lemma WriteClassAttrAsWrittenLosesOut(out: string)
    ensures WriteClassAttrAsWritten(false, out) != Ok(out)
  {
  }

  /** The write as intended: `setAttribute('class', out)` on either path. */
  function WriteClassAttr(nativeSetAttribute: bool, out: string): Result<string, Exception> {
    Ok(out)
  }

  /**
   * With the intended write, the class attribute the element ends with is
   * stable: setting the element's class to it again writes it unchanged.
   */
  lemma WriteClassAttrStable(nativeSetAttribute: bool, classString: string, rootScope: string, classAttr: string, selector: Option<string>)
    requires NoJsSpace(rootScope) && (selector.Some? ==> NoJsSpace(selector.value))
    ensures var written := WriteClassAttr(nativeSetAttribute, ClassAttrOut(classString, rootScope, classAttr, selector));
      && written.Ok?
      && WriteClassAttr(nativeSetAttribute, ClassAttrOut(written.value, rootScope, written.value, selector)) == written
  {
    ClassAttrOutStable(classString, rootScope, classAttr, selector);
  }

  /** The validation of DOMTokenList `add` and `remove` (section 7.1 of the WHATWG DOM Standard). */
  function TokenError(token: string): (r: Option<Exception>)
    ensures r.None? <==> token != "" && !ContainsAsciiSpace(token)
  {
    if token == "" then Some(SyntaxError)
    else if ContainsAsciiSpace(token) then Some(InvalidCharacterError)
    else None
  }

  /** An ordered set of valid tokens: what a DOMTokenList holds. */
  ghost predicate TokenSet(ts: seq<string>) {
    && (forall i, j :: 0 <= i < j < |ts| ==> ts[i] != ts[j])
    && (forall i :: 0 <= i < |ts| ==> TokenError(ts[i]).None?)
  }

  /** `add(token)` for a valid token: appended unless already present. */
  function AddToken(ts: seq<string>, token: string): seq<string> {
    if token in ts then ts else ts + [token]
  }

  /** `remove(token)` for a valid token. */
  function Without(ts: seq<string>, token: string): (r: seq<string>)
    ensures forall k :: k in r <==> k in ts && k != token
  {
    if ts == [] then []
    else if ts[0] == token then Without(ts[1..], token)
    else [ts[0]] + Without(ts[1..], token)
  }

  /** Removing the first token of an ordered set leaves the rest of it. */
  lemma WithoutFirst(ts: seq<string>)
    requires |ts| > 0 && TokenSet(ts)
    ensures Without(ts, ts[0]) == ts[1..] && TokenSet(ts[1..])
  {
    WithoutAbsent(ts[1..], ts[0]);
  }

  lemma {:induction false} WithoutAbsent(ts: seq<string>, token: string)
    requires token !in ts
    ensures Without(ts, token) == ts
  {
    if ts != [] {
      WithoutAbsent(ts[1..], token);
      assert [ts[0]] + ts[1..] == ts;
    }
  }

  /** An element's `classList`. */
  class ClassList {
    var tokens: seq<string>

    ghost predicate Valid()
      reads this
    {
      TokenSet(tokens)
    }

    constructor(tokens: seq<string>)
      requires TokenSet(tokens)
      ensures Valid() && this.tokens == tokens
    {
      this.tokens := tokens;
    }

    function Length(): nat
      reads this
    {
      |tokens|
    }

    /** `classList[i]`, undefined ("") past the end. */
    function Item(i: nat): string
      reads this
    {
      if i < |tokens| then tokens[i] else ""
    }

    method Add(token: string) returns (err: Option<Exception>)
      requires Valid()
      modifies this
      ensures Valid() && err == TokenError(token)
      ensures tokens == if err.Some? then old(tokens) else AddToken(old(tokens), token)
    {
      err := TokenError(token);
      if err.None? && token !in tokens {
        tokens := tokens + [token];
      }
    }

    method Remove(token: string) returns (err: Option<Exception>)
      requires Valid()
      modifies this
      ensures Valid() && err == TokenError(token)
      ensures tokens == if err.Some? then old(tokens) else Without(old(tokens), token)
    {
      err := TokenError(token);
      if err.None? {
        var before := tokens;
        tokens := Without(tokens, token);
        WithoutKeepsSet(before, token);
      }
    }
  }

  lemma {:induction false} WithoutKeepsSet(ts: seq<string>, token: string)
    requires TokenSet(ts)
    ensures TokenSet(Without(ts, token))
  {
    if ts != [] {
      WithoutKeepsSet(ts[1..], token);
      if ts[0] != token {
        var r := Without(ts, token);
        assert r == [ts[0]] + Without(ts[1..], token);
        forall j | 0 < j < |r| ensures r[j] != ts[0] {
          assert r[j] in Without(ts[1..], token);
        }
      }
    }
  }

  /**
   * The scope name the clearing loop ends with: when none is known yet and
   * the first remaining token is `style-scope`, the token after it (""
   * when there is none) is taken.
   */
  function CapturedScope(ts: seq<string>, scope: string): (r: string)
    ensures scope != "" ==> r == scope
    ensures scope == "" && ScopeName !in ts ==> r == ""
  {
    if ts == [] then scope
    else CapturedScope(ts[1..], if scope == "" && ts[0] == ScopeName then (if |ts| > 1 then ts[1] else "") else scope)
  }

  /** A known scope is kept; otherwise the token following `style-scope` in the old list is captured. */
  lemma {:induction false} CapturedScopeSpec(ts: seq<string>, scope: string)
    requires TokenSet(ts)
    ensures CapturedScope(ts, scope) == if scope != "" then scope else TokenAfterFirst(ts, ScopeName)
  {
    if ts != [] {
      var next := if scope == "" && ts[0] == ScopeName then (if |ts| > 1 then ts[1] else "") else scope;
      CapturedScopeSpec(ts[1..], next);
      if scope == "" && ts[0] == ScopeName && |ts| > 1 {
        assert TokenError(ts[1]).None?;
      }
    }
  }

  /** `classString.split(' ').filter((c) => c)` followed by the scoping pairs. */
  function ClassListRequest(classString: string, scope: string, selector: Option<string>): seq<string> {
    NonEmpty(Split(classString, IsSpaceChar)) + ScopePairs(scope, selector)
  }

  /**
   * The adding loop: each token is added in turn; the first invalid one
   * throws, leaving the tokens added before it in place.
   */
  function AddAll(ts: seq<string>, toAdd: seq<string>): (r: (seq<string>, Option<Exception>))
    ensures r.1.None? <==> forall i :: 0 <= i < |toAdd| ==> TokenError(toAdd[i]).None?
    decreases |toAdd|
  {
    if toAdd == [] then (ts, None)
    else match TokenError(toAdd[0])
      case Some(e) => (ts, Some(e))
      case None => AddAll(AddToken(ts, toAdd[0]), toAdd[1..])
  }

  /**
   * When every token is valid, the list ends as an ordered set holding
   * exactly the old tokens and the added ones, the old ones first.
   */
  lemma {:induction false} AddAllSet(ts: seq<string>, toAdd: seq<string>)
    requires TokenSet(ts) && forall i :: 0 <= i < |toAdd| ==> TokenError(toAdd[i]).None?
    ensures var r := AddAll(ts, toAdd).0;
      TokenSet(r) && |ts| <= |r| && r[..|ts|] == ts && forall k :: k in r <==> k in ts || k in toAdd
    decreases |toAdd|
  {
    if toAdd != [] {
      var next := AddToken(ts, toAdd[0]);
      assert TokenSet(next);
      AddAllSet(next, toAdd[1..]);
      var r := AddAll(ts, toAdd).0;
      assert r[..|ts|] == r[..|next|][..|ts|];
      forall k ensures k in r <==> k in ts || k in toAdd {
        assert k in toAdd <==> k == toAdd[0] || k in toAdd[1..];
      }
    }
  }

  /** Adding tokens none of which is present or repeated appends them in order. */
  lemma {:induction false} AddAllFresh(ts: seq<string>, toAdd: seq<string>)
    requires TokenSet(ts + toAdd)
    ensures AddAll(ts, toAdd) == (ts + toAdd, None)
    decreases |toAdd|
  {
    if toAdd != [] {
      assert (ts + toAdd)[|ts|] == toAdd[0];
      forall i | 0 <= i < |ts| ensures ts[i] != toAdd[0] {
        assert (ts + toAdd)[i] == ts[i];
      }
      assert ts + [toAdd[0]] + toAdd[1..] == ts + toAdd;
      assert TokenError(toAdd[0]).None?;
      assert AddToken(ts, toAdd[0]) == ts + [toAdd[0]];
      AddAllFresh(ts + [toAdd[0]], toAdd[1..]);
      assert AddAll(ts, toAdd) == AddAll(ts + [toAdd[0]], toAdd[1..]);
    } else {
      assert ts + toAdd == ts;
    }
  }

  /** A tab inside a class string survives `split(' ')` and makes `add` throw. */
  lemma TabInClassString()
    ensures AddAll([], ClassListRequest("a\tb", "", None)) == ([], Some(InvalidCharacterError))
  {
    assert IsAsciiSpace("a\tb"[1]);
    SplitNoSep("a\tb", IsSpaceChar);
  }

  /**
   * The clearing loop of `_setElementClassViaClassList`: removes the first
   * token until the list is empty, capturing the token after `style-scope`
   * when no scope name is known.
   */
  method ClearClassList(list: ClassList, scope: string) returns (scopeName: string)
    requires list.Valid()
    modifies list
    ensures list.Valid() && list.tokens == []
    ensures scopeName == CapturedScope(old(list.tokens), scope)
  {
    scopeName := scope;
    while list.Length() > 0
      invariant list.Valid() && CapturedScope(list.tokens, scopeName) == CapturedScope(old(list.tokens), scope)
      decreases |list.tokens|
    {
      var k := list.Item(0);
      if scopeName == "" && k == ScopeName {
        scopeName := list.Item(1);
      }
      WithoutFirst(list.tokens);
      var _ := list.Remove(k);
    }
  }

  /** The adding loop of `_setElementClassViaClassList`: one `add` per token, stopping at the first that throws. */
  method AddClasses(list: ClassList, classes: seq<string>) returns (err: Option<Exception>)
    requires list.Valid()
    modifies list
    ensures list.Valid() && (list.tokens, err) == AddAll(old(list.tokens), classes)
  {
    for i := 0 to |classes|
      invariant list.Valid() && AddAll(old(list.tokens), classes) == AddAll(list.tokens, classes[i..])
    {
      assert classes[i..][1..] == classes[i + 1..];
      var e := list.Add(classes[i]);
      if e.Some? {
        return e;
      }
    }
    err := None;
  }
}
