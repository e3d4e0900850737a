/**
 * Facts about `Under` on a well-formed composed tree: it only goes forward,
 * it composes, the nodes above any node form a chain, and so the subtrees
 * of two different children of one node never meet.
 */
module ComposedTree {
  import opened DomTree

  /** A node lies at or after every node it is under. */
  lemma {:induction false} UnderForward(t: Tree, a: NodeId, x: NodeId)
    requires WellFormed(t) && a < |t.nodes| && Under(t, a, x)
    ensures a <= x < |t.nodes|
    decreases |t.nodes| - a
  {
    if a != x {
      var i :| 0 <= i < |Links(t, a)| && Under(t, Links(t, a)[i], x);
      UnderForward(t, Links(t, a)[i], x);
    }
  }

  /** Beneath a node beneath `a` is beneath `a`. */
  lemma {:induction false} UnderTrans(t: Tree, a: NodeId, b: NodeId, c: NodeId)
    requires WellFormed(t) && a < |t.nodes| && b < |t.nodes|
    requires Under(t, a, b) && Under(t, b, c)
    ensures Under(t, a, c)
    decreases |t.nodes| - a
  {
    if a != b {
      var i :| 0 <= i < |Links(t, a)| && Under(t, Links(t, a)[i], b);
      UnderTrans(t, Links(t, a)[i], b, c);
    }
  }

  /** A node strictly beneath `a` is reached by a last link from a node beneath `a`. */
  lemma {:induction false} LastLink(t: Tree, a: NodeId, x: NodeId)
    requires WellFormed(t) && a < |t.nodes| && Under(t, a, x) && a != x
    ensures exists p :: a <= p < x && p < |t.nodes| && x in Links(t, p) && Under(t, a, p)
    decreases |t.nodes| - a
  {
    var i :| 0 <= i < |Links(t, a)| && Under(t, Links(t, a)[i], x);
    var k := Links(t, a)[i];
    UnderForward(t, k, x);
    if k == x {
      assert a <= a < x && x in Links(t, a) && Under(t, a, a);
    } else {
      LastLink(t, k, x);
      var p :| k <= p < x && p < |t.nodes| && x in Links(t, p) && Under(t, k, p);
      assert Under(t, a, p);
    }
  }

  /** Every link of `p` is listed under `p`. */
  lemma LinkListed(t: Tree, p: NodeId, x: NodeId)
    requires WellFormed(t) && p < |t.nodes| && x in Links(t, p)
    ensures x in Listed(t, p)
  {
    assert x in t.nodes[p].children || x in RootKids(t, p);
  }

  /** A node is linked from at most one node. */
  lemma UniqueParent(t: Tree, p: NodeId, q: NodeId, x: NodeId)
    requires WellFormed(t) && p < |t.nodes| && q < |t.nodes|
    requires x in Links(t, p) && x in Links(t, q)
    ensures p == q
  {
    LinkListed(t, p, x);
    LinkListed(t, q, x);
    var i :| 0 <= i < |Listed(t, p)| && Listed(t, p)[i] == x;
    var j :| 0 <= j < |Listed(t, q)| && Listed(t, q)[j] == x;
    assert ListedOnce(t);
  }

  /** Two nodes above the same node are one above the other. */
  lemma {:induction false} AboveChain(t: Tree, a: NodeId, b: NodeId, x: NodeId)
    requires WellFormed(t) && a < |t.nodes| && b < |t.nodes|
    requires Under(t, a, x) && Under(t, b, x)
    ensures Under(t, a, b) || Under(t, b, a)
    decreases x
  {
    if a != x && b != x {
      LastLink(t, a, x);
      var p :| a <= p < x && p < |t.nodes| && x in Links(t, p) && Under(t, a, p);
      LastLink(t, b, x);
      var q :| b <= q < x && q < |t.nodes| && x in Links(t, q) && Under(t, b, q);
      UniqueParent(t, p, q, x);
      AboveChain(t, a, b, p);
    }
  }

  /** A link of `p` lies beneath no other link of `p`. */
  lemma LinkNotBelowLink(t: Tree, p: NodeId, a: NodeId, b: NodeId)
    requires WellFormed(t) && p < |t.nodes| && a in Links(t, p) && b in Links(t, p)
    ensures Under(t, a, b) ==> a == b
  {
    if Under(t, a, b) && a != b {
      LastLink(t, a, b);
      var q :| a <= q < b && q < |t.nodes| && b in Links(t, q) && Under(t, a, q);
      UniqueParent(t, p, q, b);
    }
  }

  /** Nothing lies beneath two different links of one node. */
  lemma SiblingsApart(t: Tree, p: NodeId, a: NodeId, b: NodeId, z: NodeId)
    requires WellFormed(t) && p < |t.nodes| && a in Links(t, p) && b in Links(t, p)
    ensures Under(t, a, z) && Under(t, b, z) ==> a == b
  {
    if Under(t, a, z) && Under(t, b, z) {
      AboveChain(t, a, b, z);
      LinkNotBelowLink(t, p, a, b);
      LinkNotBelowLink(t, p, b, a);
    }
  }

  /**
   * The children a node is walked through are distinct links of it, and
   * below a host other than the document owner its light children and its
   * shadow-root children are different nodes.
   */
  lemma KidsApart(t: Tree, p: NodeId)
    requires WellFormed(t) && p < |t.nodes|
    ensures var cs, ks := t.nodes[p].children, RootKids(t, p);
      && (forall i, j :: 0 <= i < j < |cs| ==> cs[i] != cs[j])
      && (forall i, j :: 0 <= i < j < |ks| ==> ks[i] != ks[j])
      && (p != DocumentOwner ==> forall i, j :: 0 <= i < |cs| && 0 <= j < |ks| ==> cs[i] != ks[j])
      && (forall i :: 0 <= i < |cs| ==> cs[i] in Links(t, p))
      && (forall i :: 0 <= i < |ks| ==> ks[i] in Links(t, p))
  {
    var cs, ks := t.nodes[p].children, RootKids(t, p);
    var l := Listed(t, p);
    assert ListedOnce(t);
    assert forall i :: 0 <= i < |cs| ==> l[i] == cs[i];
    forall i, j | 0 <= i < j < |ks| ensures ks[i] != ks[j] {
      if p == DocumentOwner {
        assert l[i] == ks[i] && l[j] == ks[j];
      } else {
        assert l[|cs| + i] == ks[i] && l[|cs| + j] == ks[j];
      }
    }
    if p != DocumentOwner {
      forall i, j | 0 <= i < |cs| && 0 <= j < |ks| ensures cs[i] != ks[j] {
        assert l[|cs| + j] == ks[j];
      }
    }
    assert forall i :: 0 <= i < |ks| ==> Links(t, p)[|cs| + i] == ks[i];
  }
}
