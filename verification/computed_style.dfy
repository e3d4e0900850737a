/**
 * `getComputedStyleValue(element, property)` on the non-native path: the
 * value resolved for the element (or for its style owner when it has no
 * StyleInfo of its own), falling back to the platform's computed value,
 * with surrounding whitespace trimmed.
 */
module ComputedStyle {
  import opened Wrappers
  import opened Text
  import opened Values
  import opened DomTree
  import opened Styling
  import opened Cascade

  /** The StyleInfo read: the element's own, else its style owner's. */
  function InfoFor(t: Tree, infos: map<NodeId, StyleInfo>, element: NodeId): StyleInfo
    requires WellFormed(t) && element < |t.nodes| && DocumentOwner in infos
  {
    if element in infos then infos[element] else infos[StyleOwner(t, infos, element)]
  }

  /**
   * `styleInfo.styleProperties[property]`: `None` when `styleProperties`
   * is still null (reading from it throws), `Undefined` when the name is
   * not set.
   */
  function StoredValue(t: Tree, infos: map<NodeId, StyleInfo>, element: NodeId, property: string): Option<Value>
    requires WellFormed(t) && element < |t.nodes| && DocumentOwner in infos
  {
    var info := InfoFor(t, infos, element);
    if info.styleProperties.None? then None
    else if property in info.styleProperties.value then Some(info.styleProperties.value[property])
    else Some(Undefined)
  }

  /** No whitespace at either end. */
  predicate Trimmed(s: string) {
    s == [] || (!IsJsSpace(s[0]) && !IsJsSpace(s[|s| - 1]))
  }

  /**
   * `getComputedStyleValue`. `platformValue` stands for
   * `window.getComputedStyle(element).getPropertyValue(property)`. A stored
   * truthy value that is not a string has no `trim` and throws.
   */
  function GetComputedStyleValue(t: Tree, infos: map<NodeId, StyleInfo>, element: NodeId, property: string, platformValue: string): (r: Result<string, Exception>)
    requires WellFormed(t) && element < |t.nodes| && DocumentOwner in infos
    ensures r.Ok? ==> Trimmed(r.value)
  {
    var stored := StoredValue(t, infos, element, property);
    TrimSpec(platformValue);
    if stored.None? then Err(TypeError)
    else if Truthy(stored.value) then
      (if stored.value.Str? then (TrimSpec(stored.value.s); Ok(Trim(stored.value.s))) else Err(TypeError))
    else Ok(Trim(platformValue))
  }

  /**
   * The three outcomes: a `TypeError` when nothing was resolved yet or the
   * stored value is a non-string; the trimmed stored string when it is
   * non-empty; otherwise the trimmed platform value.
   */
  lemma {:induction false} GetComputedStyleValueCases(t: Tree, infos: map<NodeId, StyleInfo>, element: NodeId, property: string, platformValue: string)
    requires WellFormed(t) && element < |t.nodes| && DocumentOwner in infos
    ensures var r, v := GetComputedStyleValue(t, infos, element, property, platformValue), StoredValue(t, infos, element, property);
      && (r.Err? <==> v.None? || (Truthy(v.value) && !v.value.Str?))
      && (v.Some? && Truthy(v.value) && v.value.Str? ==> r == Ok(Trim(v.value.s)))
      && (v.Some? && !Truthy(v.value) ==> r == Ok(Trim(platformValue)))
  {
  }

  /** An element without a StyleInfo reads its style owner's resolved values. */
  lemma {:induction false} GetComputedStyleValueFromOwner(t: Tree, infos: map<NodeId, StyleInfo>, element: NodeId, property: string, platformValue: string)
    requires WellFormed(t) && element < |t.nodes| && DocumentOwner in infos && element !in infos
    ensures var owner := StyleOwner(t, infos, element);
      GetComputedStyleValue(t, infos, element, property, platformValue) == GetComputedStyleValue(t, infos, owner, property, platformValue)
  {
    var owner := StyleOwner(t, infos, element);
    assert InfoFor(t, infos, owner) == infos[owner];
  }

  /** A stored value is returned without the space that follows the `:` in CSS: " 2px" reads as "2px". */
  lemma {:induction false} GetComputedStyleValuePadding(t: Tree, infos: map<NodeId, StyleInfo>, element: NodeId, platformValue: string)
    requires WellFormed(t) && element < |t.nodes| && element in infos
    requires infos[element].styleProperties == Some(map["padding" := Str(" 2px")])
    requires DocumentOwner in infos
    ensures GetComputedStyleValue(t, infos, element, "padding", platformValue) == Ok("2px")
  {
    TrimLeadingSpace();
  }

  /** `padding: 2px` leaves " 2px" after the colon; trimming gives "2px". */
  lemma TrimLeadingSpace()
    ensures Trim(" 2px") == "2px"
  {
    assert !IsJsSpace('2') && !IsJsSpace('x');
    assert " 2px"[1..] == "2px";
    assert TrimStart(" 2px") == TrimStart("2px") == "2px";
    assert TrimEnd("2px") == "2px";
  }
}
