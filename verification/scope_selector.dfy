/** `_generateScopeSelector`: per-tag counters and the `tag-N` names they produce. */
module ScopeSelector {
  import opened Text

  /** `name + '-' + id` */
  function Selector(name: string, id: nat): string {
    name + "-" + Decimal(id)
  }

  /** `this.scopeCounter[name] || 0` */
  function Count(counter: map<string, nat>, name: string): nat {
    if name in counter then counter[name] else 0
  }

  /** The counter after one allocation for `name`. */
  function Advance(counter: map<string, nat>, name: string): (r: map<string, nat>)
    ensures Count(r, name) == Count(counter, name) + 1
    ensures forall other :: other != name ==> Count(r, other) == Count(counter, other)
    ensures r.Keys == counter.Keys + {name}
  {
    counter[name := Count(counter, name) + 1]
  }

  /** The selector the next allocation for `name` returns. */
  function NextSelector(counter: map<string, nat>, name: string): string {
    Selector(name, Count(counter, name) + 1)
  }

  /** The first allocation for a name yields `name-1`. */
  lemma FirstSelector(name: string)
    ensures NextSelector(map[], name) == name + "-1"
  {
    assert Decimal(1) == "1";
  }

  /** The '-' that precedes the number is the last one in a selector. */
  lemma LastDash(name: string, id: nat)
    ensures var s := Selector(name, id);
      s[|name|] == '-' && forall j :: |name| < j < |s| ==> s[j] != '-'
  {
    var d := Decimal(id);
    var s := Selector(name, id);
    forall j | |name| < j < |s| ensures s[j] != '-' {
      assert s[j] == d[j - |name| - 1];
    }
  }

  /**
   * A selector determines the name and number it was made from: the
   * digits after the last '-' are the number and everything before is the
   * name. So no two allocations ever yield the same selector, for one name
   * or across names.
   */
  lemma SelectorInjective(n1: string, i1: nat, n2: string, i2: nat)
    requires Selector(n1, i1) == Selector(n2, i2)
    ensures n1 == n2 && i1 == i2
  {
    var s := Selector(n1, i1);
    var d1, d2 := Decimal(i1), Decimal(i2);
    if |n1| != |n2| {
      LastDash(n1, i1);
      LastDash(n2, i2);
      assert false;
    }
    assert n1 == s[..|n1|] == n2;
    assert d1 == s[|n1| + 1..] == d2;
    DecimalInjective(i1, i2);
  }

  /**
   * An allocation differs from every selector allocated earlier for any
   * name, as long as the counters record how many were handed out.
   */
  lemma NextSelectorFresh(counter: map<string, nat>, name: string, other: string, k: nat)
    requires 1 <= k <= Count(counter, other)
    ensures NextSelector(counter, name) != Selector(other, k)
  {
    if NextSelector(counter, name) == Selector(other, k) {
      SelectorInjective(name, Count(counter, name) + 1, other, k);
      assert false;
    }
  }
}
