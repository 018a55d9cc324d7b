/**
 Chains of parent metadata between images.  `parents[x]` is the image named by
 the "parent" metadata of x; following it repeatedly gives the ancestors of x.
 */
module ParentChains {
  import opened Common

  /** An image ID: the digest of its configuration. */
  datatype ID = ID(hex: string)

  type Parents = map<ID, ID>

  /** The image reached from x after n parent steps, if the chain is that long. */
  function Ancestor(p: Parents, x: ID, n: nat): Option<ID>
    decreases n
  {
    if n == 0 then Some(x)
    else if x in p then Ancestor(p, p[x], n - 1)
    else None
  }

  /** a is x itself or one of its ancestors. */
  ghost predicate IsAncestor(p: Parents, a: ID, x: ID)
  {
    exists n: nat :: Ancestor(p, x, n) == Some(a)
  }

  ghost predicate ChainEnds(p: Parents, x: ID)
  {
    exists n: nat :: Ancestor(p, x, n) == None
  }

  /** Following parents always stops: no image is among its own ancestors. */
  ghost predicate Acyclic(p: Parents)
  {
    forall x {:trigger ChainEnds(p, x)} :: x in p ==> ChainEnds(p, x)
  }

  lemma {:induction false} AncestorCompose(p: Parents, x: ID, m: nat, n: nat)
    ensures Ancestor(p, x, m + n) ==
            match Ancestor(p, x, m) case None => None case Some(y) => Ancestor(p, y, n)
    decreases m
  {
    if m > 0 && x in p {
      AncestorCompose(p, p[x], m - 1, n);
    }
  }

  /** Dropping parent entries can only cut chains short. */
  lemma {:induction false} AncestorInSubmap(p: Parents, q: Parents, x: ID, n: nat)
    requires forall k :: k in q ==> k in p && q[k] == p[k]
    ensures Ancestor(q, x, n) == None || Ancestor(q, x, n) == Ancestor(p, x, n)
    decreases n
  {
    if n > 0 && x in q {
      AncestorInSubmap(p, q, q[x], n - 1);
    }
  }

  lemma SubmapAcyclic(p: Parents, q: Parents)
    requires forall k :: k in q ==> k in p && q[k] == p[k]
    requires Acyclic(p)
    ensures Acyclic(q)
  {
    forall x | x in q ensures ChainEnds(q, x) {
      assert ChainEnds(p, x);
      var n: nat :| Ancestor(p, x, n) == None;
      AncestorInSubmap(p, q, x, n);
    }
  }

  /** A chain that never passes through id is the same after relinking id. */
  lemma {:induction false} AncestorOffPath(p: Parents, id: ID, parent: ID, x: ID, n: nat)
    requires !IsAncestor(p, id, x)
    ensures Ancestor(p[id := parent], x, n) == Ancestor(p, x, n)
    decreases n
  {
    if n > 0 {
      assert Ancestor(p, x, 0) == Some(x);
      if x in p {
        StepKeepsOffPath(p, id, x);
        AncestorOffPath(p, id, parent, p[x], n - 1);
      }
    }
  }

  lemma StepKeepsOffPath(p: Parents, a: ID, x: ID)
    requires x in p && !IsAncestor(p, a, x)
    ensures !IsAncestor(p, a, p[x])
  {
    forall n: nat ensures Ancestor(p, p[x], n) != Some(a) {
      assert Ancestor(p, x, n + 1) == Ancestor(p, p[x], n);
    }
  }

  /** If parent's own chain ends off id, then every chain ends after relinking. */
  lemma {:induction false} RelinkEnds(p: Parents, id: ID, parent: ID, x: ID, n: nat)
    requires !IsAncestor(p, id, parent) && ChainEnds(p, parent)
    requires Ancestor(p, x, n) == None
    ensures ChainEnds(p[id := parent], x)
    decreases n
  {
    var q := p[id := parent];
    if x == id {
      var m: nat :| Ancestor(p, parent, m) == None;
      AncestorOffPath(p, id, parent, parent, m);
      assert Ancestor(q, x, m + 1) == None;
    } else if x in p {
      RelinkEnds(p, id, parent, p[x], n - 1);
      var m: nat :| Ancestor(q, p[x], m) == None;
      assert Ancestor(q, x, m + 1) == None;
    } else {
      assert Ancestor(q, x, 1) == None;
    }
  }

  /** A chain that reaches id still reaches it after relinking id. */
  lemma {:induction false} RelinkReaches(p: Parents, id: ID, parent: ID, x: ID, n: nat) returns (m: nat)
    requires Ancestor(p, x, n) == Some(id)
    ensures Ancestor(p[id := parent], x, m) == Some(id)
    decreases n
  {
    if x == id {
      m := 0;
    } else {
      m := RelinkReaches(p, id, parent, p[x], n - 1);
      m := m + 1;
    }
  }

  /** A chain that comes back to its start never ends. */
  lemma {:induction false} CycleNeverEnds(p: Parents, x: ID, k: nat, n: nat)
    requires k > 0 && Ancestor(p, x, k) == Some(x)
    ensures Ancestor(p, x, n) != None
    decreases n
  {
    if n <= k {
      AncestorCompose(p, x, n, k - n);
    } else {
      AncestorCompose(p, x, k, n - k);
      CycleNeverEnds(p, x, k, n - k);
    }
  }

  /**
   Relinking id below parent keeps chains finite exactly when id is neither
   parent nor one of parent's ancestors.
   */
  lemma RelinkAcyclic(p: Parents, id: ID, parent: ID)
    requires Acyclic(p)
    ensures Acyclic(p[id := parent]) <==> !IsAncestor(p, id, parent)
  {
    var q := p[id := parent];
    if IsAncestor(p, id, parent) {
      var n: nat :| Ancestor(p, parent, n) == Some(id);
      var m := RelinkReaches(p, id, parent, parent, n);
      assert Ancestor(q, id, m + 1) == Some(id);
      forall k: nat ensures Ancestor(q, id, k) != None {
        CycleNeverEnds(q, id, m + 1, k);
      }
      assert !ChainEnds(q, id);
    } else {
      AllChainsEnd(p, parent);
      forall x | x in q ensures ChainEnds(q, x) {
        AllChainsEnd(p, x);
        var n: nat :| Ancestor(p, x, n) == None;
        RelinkEnds(p, id, parent, x, n);
      }
    }
  }

  lemma AllChainsEnd(p: Parents, x: ID)
    requires Acyclic(p)
    ensures ChainEnds(p, x)
  {
    if x !in p {
      assert Ancestor(p, x, 1) == None;
    }
  }

  /** In acyclic metadata no image is a proper ancestor of itself. */
  lemma NoSelfAncestor(p: Parents, x: ID, n: nat)
    requires Acyclic(p) && n > 0
    ensures Ancestor(p, x, n) != Some(x)
  {
    AllChainsEnd(p, x);
    var m: nat :| Ancestor(p, x, m) == None;
    if Ancestor(p, x, n) == Some(x) {
      CycleNeverEnds(p, x, n, m);
    }
  }
}
