/**
 Links between containers, indexed in both directions: a parent's aliases for
 its children, and for each child the aliases its parents use.
 */
module LinkIndex {
  import opened Common

  datatype Container = Container(id: string, name: string)

  /** A link's full name: the name of the parent and what it calls the child. */
  datatype Alias = Alias(parent: string, name: string)

  datatype Links = Links(
    idx: map<Container, map<Alias, Container>>,
    childIdx: map<Container, map<Container, set<Alias>>>)

  /** The child the parent calls by this alias. */
  function Child(l: Links, parent: Container, alias: Alias): Option<Container>
  {
    if parent in l.idx && alias in l.idx[parent] then Some(l.idx[parent][alias]) else None
  }

  /** The aliases the parent is recorded to use for the child. */
  function Aliases(l: Links, child: Container, parent: Container): set<Alias>
  {
    if child in l.childIdx && parent in l.childIdx[child] then l.childIdx[child][parent] else {}
  }

  /** Every reverse entry is backed by a forward one. */
  ghost predicate Backed(l: Links)
  {
    forall c, p, a {:trigger a in Aliases(l, c, p)} :: a in Aliases(l, c, p) ==> Child(l, p, a) == Some(c)
  }

  /** Every forward entry is mirrored by a reverse one. */
  ghost predicate Mirrored(l: Links)
  {
    forall p, a {:trigger Child(l, p, a)} ::
      Child(l, p, a).Some? ==> a in Aliases(l, Child(l, p, a).value, p)
  }

  // ---- the operations on values ----

  function Kids(l: Links, parent: Container): map<Alias, Container>
  {
    if parent in l.idx then l.idx[parent] else map[]
  }

  function ParentsOf(l: Links, child: Container): map<Container, set<Alias>>
  {
    if child in l.childIdx then l.childIdx[child] else map[]
  }

  function LinkValue(l: Links, parent: Container, child: Container, alias: Alias): Links
  {
    Links(l.idx[parent := Kids(l, parent)[alias := child]],
          l.childIdx[child := ParentsOf(l, child)[parent := Aliases(l, child, parent) + {alias}]])
  }

  function UnlinkValue(l: Links, alias: Alias, child: Container, parent: Container): Links
  {
    Links(if parent in l.idx then l.idx[parent := l.idx[parent] - {alias}] else l.idx,
          if child in l.childIdx then l.childIdx[child := l.childIdx[child] - {parent}] else l.childIdx)
  }

  function DeleteValue(l: Links, c: Container): Links
  {
    Links(l.idx - {c},
          DropParent(l.childIdx, Kids(l, c).Values, c) - {c})
  }

  /** The reverse entries without c as a parent of the given children. */
  function DropParent(childIdx: map<Container, map<Container, set<Alias>>>, children: set<Container>, c: Container):
    map<Container, map<Container, set<Alias>>>
  {
    map x | x in childIdx :: if x in children then childIdx[x] - {c} else childIdx[x]
  }

  // ---- the direction that is kept ----

  /** The alias is not in live use between the parent and some other child. */
  ghost predicate Free(l: Links, parent: Container, alias: Alias, child: Container)
  {
    var current := Child(l, parent, alias);
    current.None? || current == Some(child) || alias !in Aliases(l, current.value, parent)
  }

  lemma LinkAdds(l: Links, parent: Container, child: Container, alias: Alias, x: Container, q: Container)
    ensures Aliases(LinkValue(l, parent, child, alias), x, q)
         == Aliases(l, x, q) + if x == child && q == parent then {alias} else {}
  {
  }

  /** Linking keeps reverse entries backed exactly when the alias is free. */
  lemma LinkBacked(l: Links, parent: Container, child: Container, alias: Alias)
    requires Backed(l)
    ensures Backed(LinkValue(l, parent, child, alias)) <==> Free(l, parent, alias, child)
  {
    var m := LinkValue(l, parent, child, alias);
    assert forall p, a :: Child(m, p, a) == if p == parent && a == alias then Some(child) else Child(l, p, a);
    assert forall c, p :: Aliases(m, c, p) == Aliases(l, c, p) + if c == child && p == parent then {alias} else {};
    if !Free(l, parent, alias, child) {
      var other := Child(l, parent, alias).value;
      assert alias in Aliases(m, other, parent);
    }
  }

  /** Unlinking keeps reverse entries backed exactly when the alias is not another child's. */
  lemma UnlinkBacked(l: Links, alias: Alias, child: Container, parent: Container)
    requires Backed(l)
    ensures Backed(UnlinkValue(l, alias, child, parent)) <==> Free(l, parent, alias, child)
  {
    var m := UnlinkValue(l, alias, child, parent);
    assert forall p, a :: Child(m, p, a) == if p == parent && a == alias then None else Child(l, p, a);
    assert forall c, p :: Aliases(m, c, p) == if c == child && p == parent then {} else Aliases(l, c, p);
    if !Free(l, parent, alias, child) {
      var other := Child(l, parent, alias).value;
      assert alias in Aliases(m, other, parent);
    }
  }

  /** The container is nobody's recorded parent. */
  ghost predicate NobodysParent(l: Links, c: Container)
  {
    forall x :: Aliases(l, x, c) == {}
  }

  /** Deleting a container keeps reverse entries backed and leaves it nobody's parent. */
  lemma DeleteBacked(l: Links, c: Container)
    requires Backed(l)
    ensures Backed(DeleteValue(l, c)) && NobodysParent(DeleteValue(l, c), c)
    ensures forall p, a :: Child(DeleteValue(l, c), p, a) == if p == c then None else Child(l, p, a)
    ensures forall x, p :: Aliases(DeleteValue(l, c), x, p) == if x == c || p == c then {} else Aliases(l, x, p)
  {
    var m := DeleteValue(l, c);
    forall x, p ensures Aliases(m, x, p) == if x == c || p == c then {} else Aliases(l, x, p) {
      if p == c && x != c && Aliases(l, x, c) != {} {
        var a :| a in Aliases(l, x, c);
        assert Child(l, c, a) == Some(x);
        assert Kids(l, c)[a] == x;
        assert x in Kids(l, c).Values;
      }
    }
  }

  // ---- the direction that is not ----

  /** Linking never loses a mirror image. */
  lemma LinkMirrored(l: Links, parent: Container, child: Container, alias: Alias)
    requires Mirrored(l)
    ensures Mirrored(LinkValue(l, parent, child, alias))
  {
    var m := LinkValue(l, parent, child, alias);
    forall p, a | Child(m, p, a).Some? ensures a in Aliases(m, Child(m, p, a).value, p) {
      assert Child(m, p, a) == if p == parent && a == alias then Some(child) else Child(l, p, a);
    }
  }

  /** Unlinking drops all the pair's aliases, so it mirrors only when there was no other one. */
  lemma UnlinkMirrored(l: Links, alias: Alias, child: Container, parent: Container)
    requires Mirrored(l)
    ensures Mirrored(UnlinkValue(l, alias, child, parent)) <==>
            forall a :: a != alias ==> Child(l, parent, a) != Some(child)
  {
    var m := UnlinkValue(l, alias, child, parent);
    assert forall p, a :: Child(m, p, a) == if p == parent && a == alias then None else Child(l, p, a);
    assert forall c, p :: Aliases(m, c, p) == if c == child && p == parent then {} else Aliases(l, c, p);
    forall a | a != alias && Child(l, parent, a) == Some(child) ensures !Mirrored(m) {
      assert Child(m, parent, a) == Some(child);
    }
  }

  /** Deleting leaves its parents' entries, so it mirrors only when it had none left. */
  lemma DeleteMirrored(l: Links, c: Container)
    requires Backed(l) && Mirrored(l)
    ensures Mirrored(DeleteValue(l, c)) <==> forall p, a :: p != c ==> Child(l, p, a) != Some(c)
  {
    var m := DeleteValue(l, c);
    DeleteBacked(l, c);
    forall p, a | p != c && Child(l, p, a) == Some(c) ensures !Mirrored(m) {
      assert Child(m, p, a) == Some(c);
    }
    if forall p, a :: p != c ==> Child(l, p, a) != Some(c) {
      forall p, a | Child(m, p, a).Some? ensures a in Aliases(m, Child(m, p, a).value, p) {
        assert Child(m, p, a) == Child(l, p, a);
      }
    }
  }

  /** Unlinking undoes the first link of a pair under an unused alias: every look-up is as before. */
  lemma UnlinkUndoesLink(l: Links, parent: Container, child: Container, alias: Alias)
    requires Child(l, parent, alias) == None && Aliases(l, child, parent) == {}
    ensures var u := UnlinkValue(LinkValue(l, parent, child, alias), alias, child, parent);
            && (forall p, a :: Child(u, p, a) == Child(l, p, a))
            && (forall c, p :: Aliases(u, c, p) == Aliases(l, c, p))
  {
  }

  /** Two links between the same containers: unlinking one forgets both reverse entries. */
  lemma UnlinkForgetsTwin(p: Container, c: Container, a: Alias, b: Alias)
    requires a != b
    ensures var l := UnlinkValue(LinkValue(LinkValue(Links(map[], map[]), p, c, a), p, c, b), a, c, p);
            Child(l, p, b) == Some(c) && Aliases(l, c, p) == {}
  {
  }

  // ---- whole runs ----

  datatype Op =
    | Link(parent: Container, child: Container, alias: Alias)
    | Unlink(alias: Alias, child: Container, parent: Container)
    | Delete(container: Container)

  function Step(l: Links, op: Op): Links
  {
    match op
    case Link(p, c, a) => LinkValue(l, p, c, a)
    case Unlink(a, c, p) => UnlinkValue(l, a, c, p)
    case Delete(c) => DeleteValue(l, c)
  }

  function Run(l: Links, ops: seq<Op>): Links
    decreases ops
  {
    if ops == [] then l else Run(Step(l, ops[0]), ops[1..])
  }

  /** Aliases are unique per live link throughout the run. */
  ghost predicate UniqueAliases(l: Links, ops: seq<Op>)
    decreases ops
  {
    ops == [] ||
    (&& (match ops[0]
         case Link(p, c, a) => Free(l, p, a, c)
         case Unlink(a, c, p) => Free(l, p, a, c)
         case Delete(_) => true)
     && UniqueAliases(Step(l, ops[0]), ops[1..]))
  }

  lemma StepBacked(l: Links, op: Op)
    requires Backed(l) && UniqueAliases(l, [op])
    ensures Backed(Step(l, op))
  {
    match op
    case Link(p, c, a) => LinkBacked(l, p, c, a);
    case Unlink(a, c, p) => UnlinkBacked(l, a, c, p);
    case Delete(c) => DeleteBacked(l, c);
  }

  /** In every run with unique aliases all reverse entries stay backed. */
  lemma {:induction false} RunBacked(l: Links, ops: seq<Op>)
    requires Backed(l) && UniqueAliases(l, ops)
    ensures Backed(Run(l, ops))
    decreases ops
  {
    if ops != [] {
      StepBacked(l, ops[0]);
      RunBacked(Step(l, ops[0]), ops[1..]);
    }
  }

  lemma StepNobodysParent(l: Links, op: Op, c: Container)
    requires Backed(l) && NobodysParent(l, c) && !(op.Link? && op.parent == c)
    ensures NobodysParent(Step(l, op), c)
  {
    if op.Delete? {
      DeleteBacked(l, op.container);
    }
    forall x ensures Aliases(Step(l, op), x, c) == {} {
      assert Aliases(l, x, c) == {};
    }
  }

  /** A deleted container is never again a parent, whatever follows, unless it is linked as one. */
  lemma {:induction false} DeletedStaysNobodysParent(l: Links, ops: seq<Op>, c: Container)
    requires Backed(l) && NobodysParent(l, c) && UniqueAliases(l, ops)
    requires forall i :: 0 <= i < |ops| && ops[i].Link? ==> ops[i].parent != c
    ensures NobodysParent(Run(l, ops), c)
    decreases ops
  {
    if ops != [] {
      StepBacked(l, ops[0]);
      StepNobodysParent(l, ops[0], c);
      DeletedStaysNobodysParent(Step(l, ops[0]), ops[1..], c);
    }
  }

  // ---- where the uniqueness comes from ----

  /** The reserved names, of containers and of links, beside the links. */
  datatype Registry = Registry(own: map<string, Container>, full: map<Alias, Container>, links: Links)

  datatype NameOp =
    | Reserve(container: Container)
    | RegisterLink(parent: Container, child: Container, name: string)
    | RemoveLink(alias: Alias)
    | Remove(container: Container)

  predicate Registered(r: Registry, c: Container)
  {
    c.name in r.own && r.own[c.name] == c
  }

  /** A link that is not named after a registered parent, or whose name is taken, is not made. */
  function NameStep(r: Registry, op: NameOp): Registry
  {
    match op
    case Reserve(c) => if c.name in r.own then r else r.(own := r.own[c.name := c])
    case RegisterLink(p, c, n) =>
      var a := Alias(p.name, n);
      if !Registered(r, p) || (a in r.full && r.full[a] != c) then r
      else r.(full := r.full[a := c], links := LinkValue(r.links, p, c, a))
    case RemoveLink(a) =>
      if a !in r.full || a.parent !in r.own then r
      else r.(full := r.full - {a}, links := UnlinkValue(r.links, a, r.full[a], r.own[a.parent]))
    case Remove(c) =>
      Registry(map n | n in r.own && r.own[n] != c :: r.own[n],
               map a | a in r.full && r.full[a] != c :: r.full[a],
               DeleteValue(r.links, c))
  }

  /** Every live link is backed, and its full name is reserved for the child under its registered parent's name. */
  ghost predicate NamesHold(r: Registry)
  {
    && Backed(r.links)
    && forall c, p, a {:trigger a in Aliases(r.links, c, p)} :: a in Aliases(r.links, c, p) ==>
         a in r.full && r.full[a] == c && a.parent == p.name && Registered(r, p)
  }

  lemma RegisterLinkHolds(r: Registry, p: Container, c: Container, n: string)
    requires NamesHold(r)
    ensures NamesHold(NameStep(r, RegisterLink(p, c, n)))
  {
    var a := Alias(p.name, n);
    if Registered(r, p) && (a !in r.full || r.full[a] == c) {
      var m := LinkValue(r.links, p, c, a);
      assert Free(r.links, p, a, c);
      LinkBacked(r.links, p, c, a);
      forall x, q, b | b in Aliases(m, x, q) ensures b in Aliases(r.links, x, q) || (b == a && x == c && q == p) {
        LinkAdds(r.links, p, c, a, x, q);
      }
    }
  }

  lemma RemoveLinkHolds(r: Registry, a: Alias)
    requires NamesHold(r)
    ensures NamesHold(NameStep(r, RemoveLink(a)))
  {
    if a in r.full && a.parent in r.own {
      var c, p := r.full[a], r.own[a.parent];
      var m := UnlinkValue(r.links, a, c, p);
      UnlinkBacked(r.links, a, c, p);
      forall x, q ensures Aliases(m, x, q) == if x == c && q == p then {} else Aliases(r.links, x, q) {
      }
      forall x, q | a in Aliases(r.links, x, q) ensures x == c && q == p {
        assert Registered(r, q);
      }
    }
  }

  lemma RemoveHolds(r: Registry, c: Container)
    requires NamesHold(r)
    ensures NamesHold(NameStep(r, Remove(c)))
  {
    DeleteBacked(r.links, c);
  }

  /**
   A link is made exactly when its parent is registered and nobody else has its
   name, and can then be looked up both ways; a removed one cannot, and its name is
   free again.
   */
  lemma LinksCanBeLookedUp(r: Registry, p: Container, c: Container, n: string)
    ensures var a := Alias(p.name, n);
            var u := NameStep(r, RegisterLink(p, c, n));
            if Registered(r, p) && (a in r.full ==> r.full[a] == c)
            then && a in u.full && u.full[a] == c && Child(u.links, p, a) == Some(c) && a in Aliases(u.links, c, p)
                 && var v := NameStep(u, RemoveLink(a));
                    a !in v.full && Child(v.links, p, a) == None && Aliases(v.links, c, p) == {}
            else u == r
  {
  }

  function NameRun(r: Registry, ops: seq<NameOp>): Registry
    decreases ops
  {
    if ops == [] then r else NameRun(NameStep(r, ops[0]), ops[1..])
  }

  /**
   In every run of the daemon's own operations, in which links are made and
   removed only under reserved names, all reverse entries are backed, whatever
   the names asked for.
   */
  lemma {:induction false} NamedLinksBacked(r: Registry, ops: seq<NameOp>)
    requires NamesHold(r)
    ensures NamesHold(NameRun(r, ops))
    decreases ops
  {
    if ops != [] {
      match ops[0] {
        case Reserve(c) =>
        case RegisterLink(p, c, n) => RegisterLinkHolds(r, p, c, n);
        case RemoveLink(a) => RemoveLinkHolds(r, a);
        case Remove(c) => RemoveHolds(r, c);
      }
      NamedLinksBacked(NameStep(r, ops[0]), ops[1..]);
    }
  }

  // ---- the index itself ----

  class Index {
    var idx: map<Container, map<Alias, Container>>
    var childIdx: map<Container, map<Container, set<Alias>>>

    ghost function Value(): Links
      reads this
    {
      Links(idx, childIdx)
    }

    constructor ()
      ensures Value() == Links(map[], map[])
    {
      idx, childIdx := map[], map[];
    }

    method Link(parent: Container, child: Container, alias: Alias)
      modifies this
      ensures Value() == LinkValue(old(Value()), parent, child, alias)
    {
      var kids := if parent in idx then idx[parent] else map[];
      idx := idx[parent := kids[alias := child]];
      var parents := if child in childIdx then childIdx[child] else map[];
      var aliases := if parent in parents then parents[parent] else {};
      childIdx := childIdx[child := parents[parent := aliases + {alias}]];
    }

    method Unlink(alias: Alias, child: Container, parent: Container)
      modifies this
      ensures Value() == UnlinkValue(old(Value()), alias, child, parent)
    {
      if parent in idx {
        idx := idx[parent := idx[parent] - {alias}];
      }
      if child in childIdx {
        childIdx := childIdx[child := childIdx[child] - {parent}];
      }
    }

    method Delete(c: Container)
      modifies this
      ensures Value() == DeleteValue(old(Value()), c)
    {
      var kids := if c in idx then idx[c] else map[];
      var todo := kids.Keys;
      ghost var visited: set<Container> := {};
      while todo != {}
        invariant todo <= kids.Keys && idx == old(idx)
        invariant visited <= kids.Values && forall a :: a in kids && a !in todo ==> kids[a] in visited
        invariant childIdx == DropParent(old(childIdx), visited, c)
        decreases todo
      {
        var alias :| alias in todo;
        todo := todo - {alias};
        var child := kids[alias];
        if child in childIdx {
          assert childIdx[child] - {c} == old(childIdx)[child] - {c};
          childIdx := childIdx[child := childIdx[child] - {c}];
        }
        visited := visited + {child};
        assert childIdx == DropParent(old(childIdx), visited, c);
      }
      assert visited == kids.Values;
      idx := idx - {c};
      childIdx := childIdx - {c};
    }

    /**
     For every alias used for the child, a parent that uses it.  With backed
     entries each of them has the child under that alias.
     */
    method Parents(child: Container) returns (parents: map<Alias, Container>)
      ensures forall a :: a in parents ==> a in Aliases(Value(), child, parents[a])
      ensures forall a, p :: a in Aliases(Value(), child, p) ==> a in parents
      ensures Backed(Value()) ==> forall a :: a in parents ==> Child(Value(), parents[a], a) == Some(child)
    {
      parents := map[];
      var recorded := if child in childIdx then childIdx[child] else map[];
      var todo := recorded.Keys;
      while todo != {}
        invariant todo <= recorded.Keys
        invariant forall a :: a in parents ==> a in Aliases(Value(), child, parents[a])
        invariant forall a, p :: p in recorded && p !in todo && a in recorded[p] ==> a in parents
        decreases todo
      {
        var parent :| parent in todo;
        todo := todo - {parent};
        var aliases := recorded[parent];
        while aliases != {}
          invariant aliases <= recorded[parent]
          invariant forall a :: a in parents ==> a in Aliases(Value(), child, parents[a])
          invariant forall a, p :: p in recorded && p !in todo && p != parent && a in recorded[p] ==> a in parents
          invariant forall a :: a in recorded[parent] && a !in aliases ==> a in parents
          decreases aliases
        {
          var alias :| alias in aliases;
          aliases := aliases - {alias};
          parents := parents[alias := parent];
        }
      }
    }
  }
}
