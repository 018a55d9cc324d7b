/**
 The ancestor filter of the container listing: the set of images reached by
 walking down the children of the images a user names.
 */
module AncestorFilter {
  import opened Common
  import opened ParentChains
  import ImageStore

  /** What getChildren returns; an image without an entry has no children. */
  type Graph = map<ID, seq<ID>>

  function Kids(g: Graph, x: ID): seq<ID>
  {
    if x in g then g[x] else []
  }

  /** y is reached from x by n steps down. */
  ghost predicate ReachIn(g: Graph, x: ID, y: ID, n: nat)
    decreases n
  {
    if n == 0 then x == y
    else exists c :: c in Kids(g, x) && ReachIn(g, c, y, n - 1)
  }

  ghost predicate Reach(g: Graph, x: ID, y: ID)
  {
    exists n: nat :: ReachIn(g, x, y, n)
  }

  /** No image is below one of its own children. */
  ghost predicate AcyclicGraph(g: Graph)
  {
    forall x, c :: c in Kids(g, x) ==> !Reach(g, c, x)
  }

  ghost function Nodes(g: Graph): set<ID>
  {
    set x, c | x in g && c in g[x] :: c
  }

  /** x and everything below it. */
  ghost function Descendants(g: Graph, x: ID): (d: set<ID>)
    ensures forall y :: y in d <==> Reach(g, x, y)
  {
    var d := set y | y in Nodes(g) + {x} && Reach(g, x, y);
    assert forall y :: Reach(g, x, y) ==> y in d by {
      forall y | Reach(g, x, y) ensures y in d {
        var n: nat :| ReachIn(g, x, y, n);
        ReachInNodes(g, x, y, n);
      }
    }
    d
  }

  ghost function AllDescendants(g: Graph, ids: seq<ID>): set<ID>
  {
    if ids == [] then {}
    else AllDescendants(g, ids[..|ids| - 1]) + Descendants(g, ids[|ids| - 1])
  }

  ghost predicate DescendantClosed(g: Graph, marked: set<ID>)
  {
    forall x, c :: x in marked && c in Kids(g, x) ==> c in marked
  }

  lemma {:induction false} ReachInNodes(g: Graph, x: ID, y: ID, n: nat)
    requires ReachIn(g, x, y, n)
    ensures y == x || y in Nodes(g)
    decreases n
  {
    if n > 0 {
      var c :| c in Kids(g, x) && ReachIn(g, c, y, n - 1);
      ReachInNodes(g, c, y, n - 1);
    }
  }

  lemma {:induction false} ClosedReach(g: Graph, marked: set<ID>, x: ID, y: ID, n: nat)
    requires DescendantClosed(g, marked) && x in marked && ReachIn(g, x, y, n)
    ensures y in marked
    decreases n
  {
    if n > 0 {
      var c :| c in Kids(g, x) && ReachIn(g, c, y, n - 1);
      ClosedReach(g, marked, c, y, n - 1);
    }
  }

  lemma ClosedContainsDescendants(g: Graph, marked: set<ID>, x: ID)
    requires DescendantClosed(g, marked) && x in marked
    ensures Descendants(g, x) <= marked
  {
    forall y | y in Descendants(g, x) ensures y in marked {
      var n: nat :| ReachIn(g, x, y, n);
      ClosedReach(g, marked, x, y, n);
    }
  }

  /** Below a child lies strictly less than below its parent. */
  lemma ChildShrinks(g: Graph, x: ID, c: ID)
    requires AcyclicGraph(g) && c in Kids(g, x)
    ensures Descendants(g, c) < Descendants(g, x)
  {
    forall y | y in Descendants(g, c) ensures y in Descendants(g, x) {
      var n: nat :| ReachIn(g, c, y, n);
      assert ReachIn(g, x, y, n + 1);
    }
    assert ReachIn(g, x, x, 0);
    assert x !in Descendants(g, c);
  }

  lemma {:induction false} InAll(g: Graph, ids: seq<ID>, y: ID)
    ensures y in AllDescendants(g, ids) <==> exists x :: x in ids && Reach(g, x, y)
  {
    if ids != [] {
      var last := |ids| - 1;
      InAll(g, ids[..last], y);
      assert forall x :: x in ids <==> x in ids[..last] || x == ids[last];
    }
  }

  /** What lies below x is x itself and what lies below its children. */
  lemma DescendantsUnfold(g: Graph, x: ID)
    ensures Descendants(g, x) == AllDescendants(g, Kids(g, x)) + {x}
  {
    forall y ensures y in Descendants(g, x) <==> y in AllDescendants(g, Kids(g, x)) + {x} {
      InAll(g, Kids(g, x), y);
      if Reach(g, x, y) {
        var n: nat :| ReachIn(g, x, y, n);
        if n > 0 {
          var c :| c in Kids(g, x) && ReachIn(g, c, y, n - 1);
          assert Reach(g, c, y);
        }
      }
      assert ReachIn(g, x, x, 0);
      forall c | c in Kids(g, x) && Reach(g, c, y) ensures Reach(g, x, y) {
        var n: nat :| ReachIn(g, c, y, n);
        assert ReachIn(g, x, y, n + 1);
      }
    }
  }

  lemma ClosedUnion(g: Graph, a: set<ID>, x: ID)
    requires DescendantClosed(g, a)
    ensures DescendantClosed(g, a + Descendants(g, x))
  {
    forall z, c | z in a + Descendants(g, x) && c in Kids(g, z) ensures c in a + Descendants(g, x) {
      if z in Descendants(g, x) {
        var n: nat :| ReachIn(g, x, z, n);
        ReachOneMore(g, x, z, c, n);
      }
    }
  }

  lemma {:induction false} ReachOneMore(g: Graph, x: ID, z: ID, c: ID, n: nat)
    requires ReachIn(g, x, z, n) && c in Kids(g, z)
    ensures ReachIn(g, x, c, n + 1)
    decreases n
  {
    if n == 0 {
      assert ReachIn(g, c, c, 0);
    } else {
      var k :| k in Kids(g, x) && ReachIn(g, k, z, n - 1);
      ReachOneMore(g, k, z, c, n - 1);
    }
  }

  class ImageFilter {
    var marked: set<ID>

    constructor ()
      ensures marked == {}
    {
      marked := {};
    }

    /**
     Marks id after all images below it.  On an acyclic graph the walk ends and
     the marks, closed under children before, are closed afterwards.
     */
    method Populate(g: Graph, id: ID)
      requires AcyclicGraph(g) && DescendantClosed(g, marked)
      modifies this
      ensures marked == old(marked) + Descendants(g, id)
      ensures DescendantClosed(g, marked)
      decreases Descendants(g, id)
    {
      if id !in marked {
        var kids := Kids(g, id);
        for i := 0 to |kids|
          invariant marked == old(marked) + AllDescendants(g, kids[..i])
          invariant DescendantClosed(g, marked)
        {
          ChildShrinks(g, id, kids[i]);
          assert kids[..i + 1][..i] == kids[..i];
          Populate(g, kids[i]);
        }
        assert kids[..|kids|] == kids;
        DescendantsUnfold(g, id);
        marked := marked + {id};
      } else {
        ClosedContainsDescendants(g, marked, id);
      }
      assert marked == old(marked) + Descendants(g, id);
      ClosedUnion(g, old(marked), id);
    }

    /** The ancestor part of the filter; an unknown image is skipped. */
    method FoldAncestors(g: Graph, named: seq<Option<ID>>)
      requires AcyclicGraph(g) && marked == {}
      modifies this
      ensures marked == AllDescendants(g, Known(named))
      ensures DescendantClosed(g, marked)
    {
      for i := 0 to |named|
        invariant marked == AllDescendants(g, Known(named[..i]))
        invariant DescendantClosed(g, marked)
      {
        assert named[..i + 1][..i] == named[..i];
        if named[i].Some? {
          ghost var before := Known(named[..i]);
          assert (before + [named[i].value])[..|before|] == before;
          if named[i].value in marked {
            ClosedContainsDescendants(g, marked, named[i].value);
          } else {
            Populate(g, named[i].value);
          }
        }
      }
      assert named[..|named|] == named;
    }
  }

  /** The images among the looked-up names. */
  function Known(named: seq<Option<ID>>): seq<ID>
  {
    if named == [] then []
    else
      var last := |named| - 1;
      if named[last].Some? then Known(named[..last]) + [named[last].value] else Known(named[..last])
  }

  lemma {:induction false} KnownExactly(named: seq<Option<ID>>, x: ID)
    ensures x in Known(named) <==> Some(x) in named
  {
    if named != [] {
      var last := |named| - 1;
      KnownExactly(named[..last], x);
      assert forall y :: y in named <==> y in named[..last] || y == named[last];
    }
  }

  // ---- the filter over the image store ----

  /** g lists, in any order, the children the store reports. */
  ghost predicate ListsChildren(g: Graph, s: ImageStore.State)
  {
    forall x, c :: (x in g && c in g[x]) <==> (x in s.images && c in s.images[x].children)
  }

  /** The children lists are the parent metadata read backwards. */
  ghost predicate Inverse(g: Graph, p: Parents)
  {
    forall x, c :: c in Kids(g, x) <==> c in p && p[c] == x
  }

  lemma StoreInverse(g: Graph, s: ImageStore.State)
    requires ImageStore.IndexAgrees(s) && ListsChildren(g, s)
    ensures Inverse(g, s.parents)
  {
    forall x, c ensures c in Kids(g, x) <==> c in s.parents && s.parents[c] == x {
      assert c in Kids(g, x) <==> x in g && c in g[x];
      assert x in s.images ==>
          (c in s.images[x].children <==> c in s.images && ImageStore.ParentOf(s, c) == Some(x));
    }
  }

  lemma {:induction false} DownIsUp(g: Graph, p: Parents, x: ID, y: ID, n: nat)
    requires Inverse(g, p)
    ensures ReachIn(g, x, y, n) <==> Ancestor(p, y, n) == Some(x)
    decreases n
  {
    if n > 0 {
      AncestorCompose(p, y, n - 1, 1);
      forall c ensures c in p && p[c] == x <==> Ancestor(p, c, 1) == Some(x) {
        if c in p { assert Ancestor(p, p[c], 0) == Some(p[c]); }
      }
      forall c | c in Kids(g, x) ensures ReachIn(g, c, y, n - 1) <==> Ancestor(p, y, n - 1) == Some(c) {
        DownIsUp(g, p, c, y, n - 1);
      }
    }
  }

  /** The children a consistent store reports always form an acyclic graph. */
  lemma StoreGraphAcyclic(g: Graph, s: ImageStore.State)
    requires ImageStore.Consistent(s) && ListsChildren(g, s)
    ensures AcyclicGraph(g)
  {
    StoreInverse(g, s);
    forall x, c | c in Kids(g, x) ensures !Reach(g, c, x) {
      forall n: nat ensures !ReachIn(g, c, x, n) {
        if ReachIn(g, c, x, n) {
          assert ReachIn(g, x, x, n + 1);
          DownIsUp(g, s.parents, x, x, n + 1);
          NoSelfAncestor(s.parents, x, n + 1);
        }
      }
    }
  }

  /**
   Over a consistent store the filter admits exactly the images that have one
   of the named images among themselves and their ancestors.
   */
  lemma FilterMeaning(g: Graph, s: ImageStore.State, named: seq<Option<ID>>, y: ID)
    requires ImageStore.Consistent(s) && ListsChildren(g, s)
    ensures y in AllDescendants(g, Known(named)) <==>
            exists x :: Some(x) in named && IsAncestor(s.parents, x, y)
  {
    InAll(g, Known(named), y);
    forall x ensures x in Known(named) <==> Some(x) in named {
      KnownExactly(named, x);
    }
    StoreInverse(g, s);
    forall x ensures Reach(g, x, y) <==> IsAncestor(s.parents, x, y) {
      if Reach(g, x, y) {
        var n: nat :| ReachIn(g, x, y, n);
        DownIsUp(g, s.parents, x, y, n);
      }
      if IsAncestor(s.parents, x, y) {
        var n: nat :| Ancestor(s.parents, y, n) == Some(x);
        DownIsUp(g, s.parents, x, y, n);
      }
    }
  }
}
