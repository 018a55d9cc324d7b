/**
 Deleting images: conflict checks, removal of references, and pruning of the
 parent chain.
 */
module ImageDelete {
  import opened Common
  import opened ParentChains
  import opened ImageStore

  /** A repository name; it is fully qualified when it names a registry. */
  datatype Name = Name(registry: Option<string>, path: string)

  datatype Ref =
    | Tagged(name: Name, tag: string)
    | Canonical(name: Name, digest: string)

  datatype Container = Container(imageID: ID, running: bool)

  datatype Daemon = Daemon(
    store: State,
    refs: map<Ref, ID>,
    containers: map<string, Container>,
    defaultRegistries: seq<string>)

  /** Which conflicts a check looks for. */
  datatype Mask = Mask(dependentChild: bool, runningContainer: bool, activeReference: bool, stoppedContainer: bool)

  datatype Conflict = Conflict(hard: bool, used: bool)

  datatype Status =
    | Done
    | DeleteConflict(conflict: Conflict)
    | ReferenceConflict
    | BadReference
    | NoSuchReference
    | UnrecognizedImage

  /** The daemon afterwards, the images deleted in order, and what is returned. */
  datatype Outcome = Outcome(daemon: Daemon, deleted: seq<ID>, status: Status)

  // ---- what is looked at ----

  function ChildrenOf(d: Daemon, id: ID): set<ID>
  {
    if id in d.store.images then d.store.images[id].children else {}
  }

  function References(refs: map<Ref, ID>, id: ID): set<Ref>
  {
    set r | r in refs && refs[r] == id
  }

  predicate InUse(d: Daemon, id: ID, running: bool)
  {
    exists c :: c in d.containers && d.containers[c] == Container(id, running)
  }

  predicate Dangling(d: Daemon, id: ID)
  {
    References(d.refs, id) == {} && ChildrenOf(d, id) == {}
  }

  function CheckConflict(d: Daemon, id: ID, mask: Mask): Option<Conflict>
  {
    if mask.dependentChild && ChildrenOf(d, id) != {} then Some(Conflict(true, false))
    else if mask.runningContainer && InUse(d, id, true) then Some(Conflict(true, true))
    else if mask.activeReference && References(d.refs, id) != {} then Some(Conflict(false, false))
    else if mask.stoppedContainer && InUse(d, id, false) then Some(Conflict(false, true))
    else None
  }

  /** Hard conflicts always count; soft ones unless forced. */
  function DeleteMask(force: bool): Mask
  {
    Mask(true, true, !force, !force)
  }

  /** The check made before an image's own references are removed. */
  function UntagMask(force: bool): Mask
  {
    Mask(true, true, false, !force)
  }

  function WithoutRefsTo(refs: map<Ref, ID>, id: ID): map<Ref, ID>
  {
    map r | r in refs && refs[r] != id :: refs[r]
  }

  // ---- deleting one image and pruning above it ----

  /** The daemon after one deletion inside the helper. */
  function AfterOne(d: Daemon, id: ID): Daemon
    requires id in d.store.images
  {
    d.(refs := WithoutRefsTo(d.refs, id), store := DeleteState(d.store, id).0)
  }

  function DeleteHelper(d: Daemon, id: ID, force: bool, prune: bool, quiet: bool): Outcome
    decreases |d.store.images|, 1
  {
    match CheckConflict(d, id, DeleteMask(force))
    case None => DeleteThenPrune(d, id, prune)
    case Some(c) =>
      if quiet && (!Dangling(d, id) || c.used) then Outcome(d, [], Done)
      else Outcome(d, [], DeleteConflict(c))
  }

  /** The part of the helper after the conflict check. */
  function DeleteThenPrune(d: Daemon, id: ID, prune: bool): Outcome
    decreases |d.store.images|, 0
  {
    if id !in d.store.images then Outcome(d.(refs := WithoutRefsTo(d.refs, id)), [], UnrecognizedImage)
    else
      var parent := ParentOf(d.store, id);
      DeleteShrinks(d.store, id);
      if !prune || parent.None? then Outcome(AfterOne(d, id), [id], Done)
      else
        var above := DeleteHelper(AfterOne(d, id), parent.value, false, true, true);
        Outcome(above.daemon, [id] + above.deleted, above.status)
  }

  lemma DeleteShrinks(s: State, id: ID)
    requires id in s.images
    ensures var t := DeleteState(s, id).0;
            t.images.Keys == s.images.Keys - {id} && |t.images| < |s.images|
  {
  }

  // ---- the whole operation ----

  /** All references are in one repository and at most one of them is a tag. */
  ghost predicate SingleRepository(refs: set<Ref>)
  {
    && refs != {}
    && (forall a, b :: a in refs && b in refs ==> a.name == b.name)
    && (forall a, b :: a in refs && b in refs && a.Tagged? && b.Tagged? ==> a == b)
  }

  /** An unqualified reference as it reads in a default registry. */
  function Qualified(r: Ref, registry: string): Ref
  {
    r.(name := Name(Some(registry), r.name.path))
  }

  /** The stored reference that a given one stands for, trying default registries in order. */
  function Resolve(refs: map<Ref, ID>, defaults: seq<string>, r: Ref): Option<Ref>
  {
    if r in refs then Some(r)
    else if r.name.registry.Some? || defaults == [] then None
    else
      var q := Qualified(r, defaults[0]);
      if q in refs then Some(q) else Resolve(refs, defaults[1..], r)
  }

  /** q is r itself if that is stored, else r in the first default registry where it is. */
  ghost predicate FirstMatch(refs: map<Ref, ID>, defaults: seq<string>, r: Ref, q: Ref)
  {
    && q in refs
    && (q == r || (&& r !in refs && r.name.registry.None?
                   && exists i :: && 0 <= i < |defaults| && q == Qualified(r, defaults[i])
                                  && forall j :: 0 <= j < i ==> Qualified(r, defaults[j]) !in refs))
  }

  /** Neither r nor, if it is unqualified, r in a default registry is stored. */
  ghost predicate NoMatch(refs: map<Ref, ID>, defaults: seq<string>, r: Ref)
  {
    r !in refs && (r.name.registry.None? ==> forall i :: 0 <= i < |defaults| ==> Qualified(r, defaults[i]) !in refs)
  }

  /** Which reference a name stands for: the first match, or none if and only if nothing matches. */
  lemma {:induction false} ResolvesToFirstMatch(refs: map<Ref, ID>, defaults: seq<string>, r: Ref)
    ensures match Resolve(refs, defaults, r)
            case Some(q) => FirstMatch(refs, defaults, r, q)
            case None => NoMatch(refs, defaults, r)
    decreases |defaults|
  {
    if r !in refs && r.name.registry.None? && defaults != [] {
      var q := Qualified(r, defaults[0]);
      if q in refs {
        assert FirstMatch(refs, defaults, r, q);
      } else {
        ResolvesToFirstMatch(refs, defaults[1..], r);
        FirstMatchLater(refs, defaults, r, Resolve(refs, defaults[1..], r));
      }
    }
  }

  lemma FirstMatchLater(refs: map<Ref, ID>, defaults: seq<string>, r: Ref, m: Option<Ref>)
    requires r !in refs && r.name.registry.None? && defaults != [] && Qualified(r, defaults[0]) !in refs
    ensures m.Some? && FirstMatch(refs, defaults[1..], r, m.value) ==> FirstMatch(refs, defaults, r, m.value)
    ensures NoMatch(refs, defaults[1..], r) ==> NoMatch(refs, defaults, r)
  {
    if m.Some? && FirstMatch(refs, defaults[1..], r, m.value) {
      var i :| && 0 <= i < |defaults| - 1 && m.value == Qualified(r, defaults[1..][i])
               && forall j :: 0 <= j < i ==> Qualified(r, defaults[1..][j]) !in refs;
      forall j | 0 <= j < i + 1 ensures Qualified(r, defaults[j]) !in refs {
        if j > 0 {
          assert Qualified(r, defaults[1..][j - 1]) !in refs;
        }
      }
      assert m.value == Qualified(r, defaults[i + 1]);
    }
    if NoMatch(refs, defaults[1..], r) {
      forall i | 0 <= i < |defaults| ensures Qualified(r, defaults[i]) !in refs {
        if i > 0 {
          assert Qualified(r, defaults[1..][i - 1]) !in refs;
        }
      }
    }
  }

  /** A first match is what the name resolves to. */
  lemma MatchIsResolved(refs: map<Ref, ID>, defaults: seq<string>, r: Ref)
    ensures NoMatch(refs, defaults, r) <==> Resolve(refs, defaults, r).None?
    ensures forall q :: FirstMatch(refs, defaults, r, q) ==> Resolve(refs, defaults, r) == Some(q)
  {
    ResolvesToFirstMatch(refs, defaults, r);
    forall q | FirstMatch(refs, defaults, r, q) ensures Resolve(refs, defaults, r) == Some(q) {
      if Resolve(refs, defaults, r).Some? {
        FirstMatchUnique(refs, defaults, r, q, Resolve(refs, defaults, r).value);
      }
    }
  }

  /** There is at most one first match. */
  lemma FirstMatchUnique(refs: map<Ref, ID>, defaults: seq<string>, r: Ref, p: Ref, q: Ref)
    requires FirstMatch(refs, defaults, r, p) && FirstMatch(refs, defaults, r, q)
    ensures p == q
  {
  }

  /** Digest references that go with the last tag of their repository. */
  predicate GoesWith(removed: Ref, r: Ref)
  {
    r.Canonical? && (removed.name.registry.None? || r.name == removed.name)
  }

  function OrphanedDigests(refs: map<Ref, ID>, id: ID, removed: Ref): set<Ref>
  {
    if removed.Canonical? || (exists r :: r in References(refs, id) && r.Tagged? && r.name == removed.name) then {}
    else set r | r in References(refs, id) && GoesWith(removed, r)
  }

  ghost function DeleteByName(d: Daemon, id: ID, parsed: Option<Ref>, force: bool, prune: bool): Outcome
  {
    if Withheld(d, id, force) then Outcome(d, [], ReferenceConflict)
    else if parsed.None? then Outcome(d, [], BadReference)
    else
      match LeftByName(d, id, parsed)
      case None => Outcome(d, [], NoSuchReference)
      case Some(left) =>
        if References(left, id) != {} then Outcome(d.(refs := left), [], Done)
        else DeleteHelper(d.(refs := left), id, force, prune, true)
  }

  /** The references after the named one and the digests that go with it are removed; none if it is not there. */
  function LeftByName(d: Daemon, id: ID, parsed: Option<Ref>): Option<map<Ref, ID>>
  {
    if parsed.None? || Resolve(d.refs, d.defaultRegistries, parsed.value).None? then None
    else
      var refs1 := d.refs - {Resolve(d.refs, d.defaultRegistries, parsed.value).value};
      Some(refs1 - OrphanedDigests(refs1, id, parsed.value))
  }

  /** The image is in use and the name is all that leads to it. */
  ghost predicate Withheld(d: Daemon, id: ID, force: bool)
  {
    !force && SingleRepository(References(d.refs, id)) && (InUse(d, id, true) || InUse(d, id, false))
  }

  ghost function DeleteByID(d: Daemon, id: ID, force: bool, prune: bool): Outcome
  {
    if SingleRepository(References(d.refs, id)) then
      match CheckConflict(d, id, UntagMask(force))
      case Some(c) => Outcome(d, [], DeleteConflict(c))
      case None => DeleteHelper(d.(refs := WithoutRefsTo(d.refs, id)), id, force, prune, false)
    else DeleteHelper(d, id, force, prune, false)
  }

  // ---- pruning removes an initial segment of the parent chain ----

  /** a can be pruned once its only child c is gone. */
  ghost predicate Prunable(d: Daemon, a: ID, c: ID)
  {
    && ChildrenOf(d, a) == {c}
    && References(d.refs, a) == {}
    && !InUse(d, a, true) && !InUse(d, a, false)
  }

  /** deleted is a stretch of the parent chain starting at id. */
  ghost predicate ChainSegment(p: Parents, id: ID, deleted: seq<ID>)
  {
    forall i :: 0 <= i < |deleted| ==> Ancestor(p, id, i) == Some(deleted[i])
  }

  ghost predicate PrunedAfterFirst(d: Daemon, deleted: seq<ID>)
  {
    forall i :: 1 <= i < |deleted| ==> Prunable(d, deleted[i], deleted[i - 1])
  }

  /** Pruning went as far as it could. */
  ghost predicate StopsBeforeNext(d: Daemon, id: ID, deleted: seq<ID>)
  {
    |deleted| > 0 ==>
      match Ancestor(d.store.parents, id, |deleted|)
      case None => true
      case Some(a) => !Prunable(d, a, deleted[|deleted| - 1])
  }

  ghost function Elements(ids: seq<ID>): set<ID>
  {
    set x | x in ids
  }

  lemma ElementsCons(id: ID, ids: seq<ID>)
    ensures Elements([id] + ids) == {id} + Elements(ids)
    ensures Elements([id]) == {id}
  {
  }

  ghost predicate Removes(d: Daemon, after: Daemon, deleted: set<ID>)
  {
    && after.store.images.Keys == d.store.images.Keys - deleted
    && Consistent(after.store)
    && after.containers == d.containers
    && DropsRefsTo(d.refs, after.refs, deleted)
  }

  /** Exactly the references to deleted images are gone. */
  ghost predicate DropsRefsTo(refs: map<Ref, ID>, after: map<Ref, ID>, deleted: set<ID>)
  {
    && (forall r :: r in after ==> r in refs && after[r] == refs[r] && refs[r] !in deleted)
    && (forall r :: r in refs && refs[r] !in deleted ==> r in after)
  }

  lemma {:induction false} AncestorWithout(p: Parents, id: ID, x: ID, n: nat)
    requires !IsAncestor(p, id, x)
    ensures Ancestor(p - {id}, x, n) == Ancestor(p, x, n)
    decreases n
  {
    assert Ancestor(p, x, 0) == Some(x);
    if n > 0 && x in p {
      StepKeepsOffPath(p, id, x);
      AncestorWithout(p, id, p[x], n - 1);
    }
  }

  lemma ParentNotBelow(p: Parents, id: ID)
    requires Acyclic(p) && id in p
    ensures !IsAncestor(p, id, p[id])
  {
    forall n: nat ensures Ancestor(p, p[id], n) != Some(id) {
      NoSelfAncestor(p, id, n + 1);
    }
  }

  lemma PrunableAfterOne(d: Daemon, id: ID, x: ID, c: ID)
    requires Consistent(d.store) && id in d.store.images && ChildrenOf(d, id) == {}
    requires x != id && c != id && ParentOf(d.store, id) != Some(x)
    ensures Prunable(AfterOne(d, id), x, c) <==> Prunable(d, x, c)
  {
  }

  lemma PrunableParent(d: Daemon, id: ID, a: ID)
    requires Consistent(d.store) && id in d.store.images && ChildrenOf(d, id) == {}
    requires ParentOf(d.store, id) == Some(a)
    ensures CheckConflict(AfterOne(d, id), a, DeleteMask(false)) == None <==> Prunable(d, a, id)
  {
  }

  /** What a deletion that goes through achieves. */
  ghost predicate Deletes(d: Daemon, id: ID, prune: bool, r: Outcome)
  {
    && r.status == Done
    && |r.deleted| > 0
    && ChainSegment(d.store.parents, id, r.deleted)
    && PrunedAfterFirst(d, r.deleted)
    && (if prune then StopsBeforeNext(d, id, r.deleted) else |r.deleted| == 1)
    && Removes(d, r.daemon, Elements(r.deleted))
  }

  /**
   The helper on a stored image.  With a conflict nothing changes.  Otherwise
   it removes a stretch of the parent chain starting at the image: only the
   image itself without prune; with prune, as many ancestors as have no other
   child, no reference and no container.  No reference to a removed image stays.
   */
  lemma {:induction false} HelperRemovesSegment(d: Daemon, id: ID, force: bool, prune: bool, quiet: bool)
    requires Consistent(d.store) && id in d.store.images
    ensures var r := DeleteHelper(d, id, force, prune, quiet);
            if CheckConflict(d, id, DeleteMask(force)).Some?
            then r.daemon == d && r.deleted == [] && (quiet ==> r.status == Done)
            else Deletes(d, id, prune, r)
    decreases |d.store.images|
  {
    if CheckConflict(d, id, DeleteMask(force)).None? {
      var gone := AfterOne(d, id);
      var parent := ParentOf(d.store, id);
      DeleteShrinks(d.store, id);
      if !prune || parent.None? {
        DeletesOne(d, id, prune);
      } else {
        DeleteConsistent(d.store, id);
        HelperRemovesSegment(gone, parent.value, false, true, true);
        PrunableParent(d, id, parent.value);
        ExtendSegment(d, id, DeleteHelper(gone, parent.value, false, true, true));
      }
    } else {
      QuietIsSilent(d, id, force, prune);
    }
  }

  lemma RemovesOne(d: Daemon, id: ID)
    requires Consistent(d.store) && id in d.store.images
    ensures Removes(d, AfterOne(d, id), {id})
  {
    DropsOne(d.refs, id);
    DeleteShrinks(d.store, id);
    DeleteConsistent(d.store, id);
  }

  lemma DeletesOne(d: Daemon, id: ID, prune: bool)
    requires Consistent(d.store) && id in d.store.images
    requires prune ==> ParentOf(d.store, id).None?
    ensures Deletes(d, id, prune, Outcome(AfterOne(d, id), [id], Done))
  {
    RemovesOne(d, id);
    ElementsCons(id, []);
    assert Ancestor(d.store.parents, id, 0) == Some(id);
  }

  lemma DropsOne(refs: map<Ref, ID>, id: ID)
    ensures DropsRefsTo(refs, WithoutRefsTo(refs, id), {id})
  {
  }

  /** Puts the deleted image in front of the segment removed above it. */
  lemma ExtendSegment(d: Daemon, id: ID, above: Outcome)
    requires Consistent(d.store) && id in d.store.images && ChildrenOf(d, id) == {}
    requires ParentOf(d.store, id).Some?
    requires var a := ParentOf(d.store, id).value;
             if Prunable(d, a, id) then Deletes(AfterOne(d, id), a, true, above)
             else above.daemon == AfterOne(d, id) && above.deleted == [] && above.status == Done
    ensures Deletes(d, id, true, Outcome(above.daemon, [id] + above.deleted, above.status))
  {
    var a := ParentOf(d.store, id).value;
    RemovesOne(d, id);
    ElementsCons(id, above.deleted);
    ParentsAfterOne(d, id);
    if Prunable(d, a, id) {
      RemovesBoth(d, AfterOne(d, id), above.daemon, {id}, Elements(above.deleted));
      ExtendChain(d.store.parents, id, above.deleted);
      SegmentPrunable(d, id, above.deleted);
      ExtendStop(d, id, above.deleted);
    } else {
      assert [id] + above.deleted == [id];
      assert Ancestor(d.store.parents, id, 0) == Some(id);
      assert Ancestor(d.store.parents, id, 1) == Ancestor(d.store.parents, a, 0) == Some(a);
    }
  }

  lemma ParentsAfterOne(d: Daemon, id: ID)
    requires id in d.store.images && ChildrenOf(d, id) == {}
    ensures AfterOne(d, id).store.parents == d.store.parents - {id}
  {
  }

  lemma ExtendChain(p: Parents, id: ID, deleted: seq<ID>)
    requires Acyclic(p) && id in p && ChainSegment(p - {id}, p[id], deleted)
    ensures ChainSegment(p, id, [id] + deleted)
  {
    ParentNotBelow(p, id);
    forall i | 0 <= i < |deleted| + 1 ensures Ancestor(p, id, i) == Some(([id] + deleted)[i]) {
      if i > 0 {
        AncestorWithout(p, id, p[id], i - 1);
      }
    }
  }

  lemma RemovesBoth(d: Daemon, gone: Daemon, after: Daemon, a: set<ID>, b: set<ID>)
    requires Removes(d, gone, a) && Removes(gone, after, b)
    ensures Removes(d, after, a + b)
  {
  }

  /** Above the first pruned image, deleting id changes nothing for pruning. */
  lemma AboveUnaffected(d: Daemon, id: ID, a: ID, x: ID, c: ID, n: nat)
    requires Consistent(d.store) && id in d.store.images && ChildrenOf(d, id) == {}
    requires ParentOf(d.store, id) == Some(a)
    requires n > 0 && Ancestor(d.store.parents, a, n) == Some(x) && Ancestor(d.store.parents, a, n - 1) == Some(c)
    ensures Prunable(AfterOne(d, id), x, c) <==> Prunable(d, x, c)
  {
    ParentNotBelow(d.store.parents, id);
    NoSelfAncestor(d.store.parents, a, n);
    PrunableAfterOne(d, id, x, c);
  }

  lemma SegmentPrunable(d: Daemon, id: ID, deleted: seq<ID>)
    requires Consistent(d.store) && id in d.store.images && ChildrenOf(d, id) == {}
    requires ParentOf(d.store, id).Some? && |deleted| > 0
    requires Prunable(d, ParentOf(d.store, id).value, id)
    requires ChainSegment(d.store.parents - {id}, ParentOf(d.store, id).value, deleted)
    requires PrunedAfterFirst(AfterOne(d, id), deleted)
    ensures PrunedAfterFirst(d, [id] + deleted)
  {
  }

  /** The image pruning stopped at, if any, was not prunable before either. */
  lemma ExtendStop(d: Daemon, id: ID, deleted: seq<ID>)
    requires Consistent(d.store) && id in d.store.images && ChildrenOf(d, id) == {}
    requires ParentOf(d.store, id).Some? && |deleted| > 0
    requires ChainSegment(d.store.parents - {id}, ParentOf(d.store, id).value, deleted)
    requires StopsBeforeNext(AfterOne(d, id), ParentOf(d.store, id).value, deleted)
    ensures StopsBeforeNext(d, id, [id] + deleted)
  {
    var a, p, k := ParentOf(d.store, id).value, d.store.parents, |deleted|;
    ParentNotBelow(p, id);
    ParentsAfterOne(d, id);
    AncestorWithout(p, id, a, k);
    AncestorWithout(p, id, a, k - 1);
    if Ancestor(p, a, k).Some? {
      assert Ancestor(p - {id}, a, k - 1) == Some(deleted[k - 1]);
      AboveUnaffected(d, id, a, Ancestor(p, a, k).value, deleted[k - 1], k);
    }
    StopFromAbove(d, AfterOne(d, id), id, a, deleted);
  }

  lemma StopFromAbove(d: Daemon, gone: Daemon, id: ID, a: ID, deleted: seq<ID>)
    requires |deleted| > 0 && StopsBeforeNext(gone, a, deleted)
    requires Ancestor(d.store.parents, id, |deleted| + 1) == Ancestor(gone.store.parents, a, |deleted|)
    requires var next, last := Ancestor(gone.store.parents, a, |deleted|), deleted[|deleted| - 1];
             next.Some? ==> (Prunable(gone, next.value, last) <==> Prunable(d, next.value, last))
    ensures StopsBeforeNext(d, id, [id] + deleted)
  {
  }

  // ---- conflicts ----

  /** A quiet deletion never reports a conflict, on any daemon state. */
  lemma {:induction false} QuietIsSilent(d: Daemon, id: ID, force: bool, prune: bool)
    ensures !DeleteHelper(d, id, force, prune, true).status.DeleteConflict?
    decreases |d.store.images|
  {
    if CheckConflict(d, id, DeleteMask(force)).None? && id in d.store.images
       && prune && ParentOf(d.store, id).Some?
    {
      DeleteShrinks(d.store, id);
      QuietIsSilent(AfterOne(d, id), ParentOf(d.store, id).value, false, true);
    }
  }

  /** Deleting an unknown image that nothing uses reports it, but its references are gone. */
  lemma UnknownLosesReferences(d: Daemon, id: ID, force: bool, prune: bool, quiet: bool)
    requires id !in d.store.images && CheckConflict(d, id, DeleteMask(force)).None?
    ensures var r := DeleteHelper(d, id, force, prune, quiet);
            && r.status == UnrecognizedImage && r.deleted == [] && r.daemon.store == d.store
            && forall x :: x in d.refs ==> (x in r.daemon.refs <==> d.refs[x] != id)
  {
  }

  /** Some container was created from the image and is running, or is not. */
  ghost predicate UsedBy(d: Daemon, id: ID, running: bool)
  {
    exists name :: name in d.containers && d.containers[name].imageID == id && d.containers[name].running == running
  }

  lemma InUseExactly(d: Daemon, id: ID, running: bool)
    ensures InUse(d, id, running) <==> UsedBy(d, id, running)
  {
    if UsedBy(d, id, running) {
      var name :| name in d.containers && d.containers[name].imageID == id && d.containers[name].running == running;
      assert d.containers[name] == Container(id, running);
    }
  }

  /**
   Which conflict a deletion reports: a hard one exactly for children and running
   containers; otherwise a soft one, which force overrides.  It names a container
   exactly when no child or reference already stands in the way.
   */
  lemma ConflictExactly(d: Daemon, id: ID, force: bool)
    ensures var hard := ChildrenOf(d, id) != {} || UsedBy(d, id, true);
            var soft := exists r :: r in d.refs && d.refs[r] == id;
            match CheckConflict(d, id, DeleteMask(force))
            case None => !hard && (force || (!soft && !UsedBy(d, id, false)))
            case Some(c) => && (c.hard <==> hard) && (hard || !force)
                            && (c.used <==> ChildrenOf(d, id) == {} && (UsedBy(d, id, true) || !soft))
  {
    InUseExactly(d, id, true);
    InUseExactly(d, id, false);
    assert References(d.refs, id) != {} <==> exists r :: r in d.refs && d.refs[r] == id by {
      if r :| r in d.refs && d.refs[r] == id {
        assert r in References(d.refs, id);
      }
    }
  }

  /**
   Deleting by ID is all or nothing.  Nothing changes and the conflict is
   returned, or the image is deleted; which of the two is decided by the state
   before: children and running containers always prevent it, and, unless
   forced, so do stopped containers and references outside a single repository.
   */
  lemma ByIDAllOrNothing(d: Daemon, id: ID, force: bool, prune: bool)
    requires Consistent(d.store) && id in d.store.images
    ensures var r := DeleteByID(d, id, force, prune);
            var refs := References(d.refs, id);
            var blocked := ChildrenOf(d, id) != {} || UsedBy(d, id, true) ||
                           (!force && (UsedBy(d, id, false) || (refs != {} && !SingleRepository(refs))));
            if blocked then r.daemon == d && r.deleted == [] && r.status.DeleteConflict?
            else Deletes(d, id, prune, r)
  {
    var untagged := d.(refs := WithoutRefsTo(d.refs, id));
    var refs := References(d.refs, id);
    InUseExactly(d, id, true);
    InUseExactly(d, id, false);
    HelperRemovesSegment(d, id, force, prune, false);
    if SingleRepository(refs) && CheckConflict(d, id, UntagMask(force)).None? {
      assert References(untagged.refs, id) == {};
      HelperRemovesSegment(untagged, id, force, prune, false);
      UntaggedFirst(d, id, prune, DeleteHelper(untagged, id, force, prune, false));
    }
  }

  /** Removing the image's references beforehand makes no difference to what is deleted. */
  lemma UntaggedFirst(d: Daemon, id: ID, prune: bool, r: Outcome)
    requires Consistent(d.store) && id in d.store.images
    requires Deletes(d.(refs := WithoutRefsTo(d.refs, id)), id, prune, r)
    ensures Deletes(d, id, prune, r)
  {
    var untagged := d.(refs := WithoutRefsTo(d.refs, id));
    assert Ancestor(d.store.parents, id, 0) == Some(r.deleted[0]);
    forall i: nat, c | i > 0 && Ancestor(d.store.parents, id, i).Some?
      ensures var a := Ancestor(d.store.parents, id, i).value; Prunable(untagged, a, c) <==> Prunable(d, a, c)
    {
      var a := Ancestor(d.store.parents, id, i).value;
      NoSelfAncestor(d.store.parents, id, i);
      assert References(untagged.refs, a) == References(d.refs, a);
    }
    forall i | 1 <= i < |r.deleted| ensures Prunable(d, r.deleted[i], r.deleted[i - 1]) {
      assert Prunable(untagged, r.deleted[i], r.deleted[i - 1]);
      assert Ancestor(d.store.parents, id, i) == Some(r.deleted[i]);
    }
  }

  /**
   Deleting by name.  A refused call changes nothing.  Otherwise the named
   reference goes with the digests that belong to it, no conflict is ever
   reported, and images go exactly when that leaves the image without
   references, children and containers; those removed are again a segment of
   the parent chain.
   */
  lemma ByNameRemovesReference(d: Daemon, id: ID, parsed: Option<Ref>, force: bool, prune: bool)
    requires Consistent(d.store) && id in d.store.images
    ensures var r := DeleteByName(d, id, parsed, force, prune);
            var left := LeftByName(d, id, parsed);
            var used := UsedBy(d, id, true) || UsedBy(d, id, false);
            if !force && used && SingleRepository(References(d.refs, id)) then r == Outcome(d, [], ReferenceConflict)
            else if left.None? then r == Outcome(d, [], if parsed.None? then BadReference else NoSuchReference)
            else if References(left.value, id) == {} && ChildrenOf(d, id) == {}
                    && !UsedBy(d, id, true) && (force || !UsedBy(d, id, false))
            then Deletes(d.(refs := left.value), id, prune, r)
            else r == Outcome(d.(refs := left.value), [], Done)
  {
    var left := LeftByName(d, id, parsed);
    InUseExactly(d, id, true);
    InUseExactly(d, id, false);
    if left.Some? {
      HelperRemovesSegment(d.(refs := left.value), id, force, prune, true);
    }
  }

  // ---- which digest references go with a tag ----

  /** A tag other than the removed reference is left in the repository. */
  ghost predicate OtherTag(d: Daemon, id: ID, removed: Ref, name: Name)
  {
    exists t :: t in References(d.refs, id) && t.Tagged? && t != removed && t.name == name
  }

  /** A digest reference to the image, other than the removed reference. */
  predicate OtherDigest(d: Daemon, id: ID, removed: Ref, r: Ref)
  {
    r in References(d.refs, id) && r.Canonical? && r != removed
  }

  /**
   Which references stay, for every name that resolves: tags; everything if a
   digest was named or a tag is left under the name as given; and under a
   qualified name the references of other repositories.
   */
  lemma KeptByName(d: Daemon, id: ID, parsed: Ref, r: Ref)
    requires Resolve(d.refs, d.defaultRegistries, parsed).Some?
    requires r in References(d.refs, id) && r != Resolve(d.refs, d.defaultRegistries, parsed).value
    ensures var stored := Resolve(d.refs, d.defaultRegistries, parsed).value;
            r in LeftByName(d, id, Some(parsed)).value <==>
            || r.Tagged? || parsed.Canonical? || OtherTag(d, id, stored, parsed.name)
            || (parsed.name.registry.Some? && r.name != parsed.name)
  {
    var stored := Resolve(d.refs, d.defaultRegistries, parsed).value;
    var refs1 := d.refs - {stored};
    assert forall t :: t in References(refs1, id) <==> t in References(d.refs, id) && t != stored;
  }

  /** The rule the code is after: digests go with the last tag of the repository the removed reference was in. */
  ghost predicate FollowsTagRule(d: Daemon, id: ID, parsed: Ref)
    requires Resolve(d.refs, d.defaultRegistries, parsed).Some?
  {
    var stored := Resolve(d.refs, d.defaultRegistries, parsed).value;
    forall r :: r in References(d.refs, id) && r != stored ==>
      (r in LeftByName(d, id, Some(parsed)).value <==>
       r.Tagged? || parsed.Canonical? || r.name != stored.name || OtherTag(d, id, stored, stored.name))
  }

  /** What has to hold of an unqualified tag. */
  ghost predicate UnqualifiedTagOK(d: Daemon, id: ID, given: Name, stored: Ref)
  {
    if OtherTag(d, id, stored, given) then
      OtherTag(d, id, stored, stored.name) || forall r :: OtherDigest(d, id, stored, r) ==> r.name != stored.name
    else
      forall r :: OtherDigest(d, id, stored, r) ==> r.name == stored.name && !OtherTag(d, id, stored, stored.name)
  }

  /**
   The rule is followed for digests and for qualified names.  For an unqualified
   tag it is followed exactly when no digest of another repository goes with it
   and the tags under the given name and under the stored name agree about the rest.
   */
  lemma TagRuleExactly(d: Daemon, id: ID, parsed: Ref)
    requires Resolve(d.refs, d.defaultRegistries, parsed).Some?
    ensures FollowsTagRule(d, id, parsed) <==>
            || parsed.Canonical? || parsed.name.registry.Some?
            || UnqualifiedTagOK(d, id, parsed.name, Resolve(d.refs, d.defaultRegistries, parsed).value)
  {
    var stored := Resolve(d.refs, d.defaultRegistries, parsed).value;
    ResolvesToFirstMatch(d.refs, d.defaultRegistries, parsed);
    assert stored.Tagged? == parsed.Tagged?;
    forall r | r in References(d.refs, id) && r != stored
      ensures r in LeftByName(d, id, Some(parsed)).value <==>
              || r.Tagged? || parsed.Canonical? || OtherTag(d, id, stored, parsed.name)
              || (parsed.name.registry.Some? && r.name != parsed.name)
    {
      KeptByName(d, id, parsed, r);
    }
    if !(parsed.Canonical? || parsed.name.registry.Some?) {
      forall r | OtherDigest(d, id, stored, r)
        ensures r in LeftByName(d, id, Some(parsed)).value <==> OtherTag(d, id, stored, parsed.name)
      {
        assert r in References(d.refs, id);
      }
    }
  }

  const HOST := Name(Some("host"), "p")
  const OTHER := Name(Some("other"), "p")

  /** Two repositories, each with tags and a digest on one image. */
  function TwoRepositories(id: ID): map<Ref, ID>
  {
    map[Tagged(HOST, "a") := id, Tagged(HOST, "b") := id, Canonical(HOST, "d") := id,
        Tagged(OTHER, "a") := id, Canonical(OTHER, "d") := id]
  }

  /**
   Not always: removing the unqualified p:a, stored as host/p:a, drops the digests
   of both repositories although a tag is left in each.
   */
  lemma UnqualifiedTakesDigests(d: Daemon, id: ID)
    requires d.refs == TwoRepositories(id) && d.defaultRegistries == ["host"]
    ensures var left := LeftByName(d, id, Some(Tagged(Name(None, "p"), "a")));
            left.Some? && forall r :: r in d.refs ==> (r in left.value <==> r.Tagged? && r != Tagged(HOST, "a"))
  {
    var parsed := Tagged(Name(None, "p"), "a");
    assert Qualified(parsed, "host") == Tagged(HOST, "a");
    assert Resolve(d.refs, ["host"], parsed) == Some(Tagged(HOST, "a"));
    forall r | r in d.refs && r != Tagged(HOST, "a")
      ensures r in LeftByName(d, id, Some(parsed)).value <==> r.Tagged?
    {
      KeptByName(d, id, parsed, r);
    }
  }

  // ---- the daemon itself ----

  /** refs lists rs without repetition. */
  ghost predicate Lists(refs: seq<Ref>, rs: set<Ref>)
  {
    && (forall r :: r in refs <==> r in rs)
    && (forall i, j :: 0 <= i < j < |refs| ==> refs[i] != refs[j])
  }

  function RefSet(list: seq<Ref>): set<Ref>
  {
    set r | r in list
  }

  lemma RefSetTake(list: seq<Ref>, i: nat)
    requires i < |list|
    ensures RefSet(list[..i + 1]) == RefSet(list[..i]) + {list[i]}
  {
  }

  /** Decides whether the list is non-empty, names a single repository and holds at most one tag. */
  method IsSingleReference(refs: seq<Ref>) returns (single: bool)
    ensures single <==>
            && refs != []
            && (forall i, j :: 0 <= i < |refs| && 0 <= j < |refs| ==> refs[i].name == refs[j].name)
            && (forall i, j :: 0 <= i < j < |refs| ==> !(refs[i].Tagged? && refs[j].Tagged?))
  {
    if |refs| <= 1 {
      return |refs| == 1;
    }
    var tag: Option<Ref> := None;
    var canonicalNames: set<Name> := {};
    ghost var at := 0;
    for i := 0 to |refs|
      invariant tag.None? ==> forall k :: 0 <= k < i ==> refs[k].Canonical?
      invariant tag.Some? ==> 0 <= at < i && refs[at] == tag.value && refs[at].Tagged?
      invariant tag.Some? ==> forall k :: 0 <= k < i && k != at ==> refs[k].Canonical?
      invariant forall k :: 0 <= k < i && refs[k].Canonical? ==> refs[k].name in canonicalNames
      invariant forall n :: n in canonicalNames ==> exists k :: 0 <= k < i && refs[k].Canonical? && refs[k].name == n
    {
      if refs[i].Canonical? {
        canonicalNames := canonicalNames + {refs[i].name};
      } else if tag.None? {
        tag := Some(refs[i]);
        at := i;
      } else {
        return false;
      }
    }
    var chosen := if tag.Some? then tag.value else refs[0];
    assert refs[0].Canonical? || refs[1].Canonical?;
    if forall i, j :: 0 <= i < |refs| && 0 <= j < |refs| ==> refs[i].name == refs[j].name {
      assert canonicalNames == {refs[0].name};
    }
    single := |canonicalNames| == 1 && chosen.name in canonicalNames;
    if single {
      SingletonSet(canonicalNames, chosen.name);
    }
  }

  lemma SingletonSet<T>(s: set<T>, x: T)
    requires |s| == 1 && x in s
    ensures s == {x}
  {
    assert |s - {x}| == 0;
  }

  /** Exactly the references removed since are added to the record. */
  ghost predicate Records(before: seq<Ref>, had: map<Ref, ID>, after: seq<Ref>, has: map<Ref, ID>)
  {
    && (forall r :: r in has ==> r in had)
    && (forall r :: r in after <==> r in before || (r in had && r !in has))
  }

  /** The record of a removal by name: the name as given, and whatever else is gone. */
  ghost predicate RecordsName(d: Daemon, parsed: Ref, after: seq<Ref>, has: map<Ref, ID>)
  {
    var stored := Resolve(d.refs, d.defaultRegistries, parsed);
    && stored.Some? && stored.value !in has && (forall r :: r in has ==> r in d.refs)
    && forall r :: r in after <==> r == parsed || (r in d.refs && r != stored.value && r !in has)
  }

  predicate Refused(status: Status)
  {
    status == ReferenceConflict || status == BadReference || status == NoSuchReference
  }

  lemma {:induction false} HelperStatus(d: Daemon, id: ID, force: bool, prune: bool, quiet: bool)
    ensures !Refused(DeleteHelper(d, id, force, prune, quiet).status)
    decreases |d.store.images|
  {
    if CheckConflict(d, id, DeleteMask(force)).None? && id in d.store.images && prune && ParentOf(d.store, id).Some? {
      DeleteShrinks(d.store, id);
      HelperStatus(AfterOne(d, id), ParentOf(d.store, id).value, false, true, true);
    }
  }

  class ImageDaemon {
    var store: State
    var refs: map<Ref, ID>
    var containers: map<string, Container>
    var defaultRegistries: seq<string>
    var untagged: seq<Ref>  // references reported as removed

    function Value(): Daemon
      reads this
    {
      Daemon(store, refs, containers, defaultRegistries)
    }

    method ListReferences(id: ID) returns (list: seq<Ref>)
      ensures Lists(list, References(refs, id))
    {
      var todo := References(refs, id);
      list := [];
      while todo != {}
        invariant todo <= References(refs, id)
        invariant Lists(list, References(refs, id) - todo)
        decreases todo
      {
        var r :| r in todo;
        list := list + [r];
        todo := todo - {r};
      }
    }

    /**
     Removes the first stored reference that matches r: r itself, or if r is
     unqualified r in one of the default registries; fails when there is none.
     */
    method RemoveImageRef(r: Ref) returns (found: bool)
      modifies this`refs
      ensures found <==> !NoMatch(old(refs), defaultRegistries, r)
      ensures found ==> exists q :: FirstMatch(old(refs), defaultRegistries, r, q) && refs == old(refs) - {q}
      ensures !found ==> refs == old(refs)
    {
      if r in refs {
        refs := refs - {r};
        return true;
      }
      if r.name.registry.None? {
        for i := 0 to |defaultRegistries|
          invariant refs == old(refs)
          invariant forall j :: 0 <= j < i ==> Qualified(r, defaultRegistries[j]) !in refs
        {
          var q := Qualified(r, defaultRegistries[i]);
          if q in refs {
            assert FirstMatch(refs, defaultRegistries, r, q);
            refs := refs - {q};
            return true;
          }
        }
      }
      found := false;
    }

    /** Removes the listed references, each of which is in the store, and records them. */
    method RemoveRefs(list: seq<Ref>)
      requires Lists(list, RefSet(list)) && forall r :: r in list ==> r in refs
      modifies this`refs, this`untagged
      ensures refs == old(refs) - RefSet(list)
      ensures forall r :: r in untagged <==> r in old(untagged) || r in list
      ensures Records(old(untagged), old(refs), untagged, refs)
    {
      for i := 0 to |list|
        invariant refs == old(refs) - RefSet(list[..i])
        invariant forall r :: r in untagged <==> r in old(untagged) || r in list[..i]
      {
        assert list[i] !in list[..i];
        var found := RemoveImageRef(list[i]);
        untagged := untagged + [list[i]];
        RefSetTake(list, i);
      }
      assert list[..|list|] == list;
    }

    method RemoveAllReferences(id: ID)
      modifies this`refs, this`untagged
      ensures refs == WithoutRefsTo(old(refs), id)
      ensures Records(old(untagged), old(refs), untagged, refs)
    {
      var list := ListReferences(id);
      RemoveRefs(list);
    }

    /** Drops a stored image together with its references. */
    method RemoveImage(id: ID)
      requires id in store.images
      modifies this`store, this`refs, this`untagged
      ensures Value() == AfterOne(old(Value()), id)
      ensures Records(old(untagged), old(refs), untagged, refs)
    {
      RemoveAllReferences(id);
      store := DeleteState(store, id).0;
    }

    method ImageDeleteHelper(id: ID, force: bool, prune: bool, quiet: bool) returns (status: Status, deleted: seq<ID>)
      modifies this`store, this`refs, this`untagged
      ensures Outcome(Value(), deleted, status) == DeleteHelper(old(Value()), id, force, prune, quiet)
      ensures Records(old(untagged), old(refs), untagged, refs)
      decreases |store.images|, 1
    {
      var conflict := CheckConflict(Value(), id, DeleteMask(force));
      if conflict.None? {
        status, deleted := DeleteAndPrune(id, prune);
      } else if quiet && (!Dangling(Value(), id) || conflict.value.used) {
        status, deleted := Done, [];
      } else {
        status, deleted := DeleteConflict(conflict.value), [];
      }
    }

    method DeleteAndPrune(id: ID, prune: bool) returns (status: Status, deleted: seq<ID>)
      modifies this`store, this`refs, this`untagged
      ensures Outcome(Value(), deleted, status) == DeleteThenPrune(old(Value()), id, prune)
      ensures Records(old(untagged), old(refs), untagged, refs)
      decreases |store.images|, 0
    {
      if id !in store.images {
        RemoveAllReferences(id);
        status, deleted := UnrecognizedImage, [];
      } else {
        var parent := ParentOf(store, id);
        DeleteShrinks(store, id);
        RemoveImage(id);
        if !prune || parent.None? {
          return Done, [id];
        }
        status, deleted := ImageDeleteHelper(parent.value, false, true, true);
        assert Outcome(Value(), deleted, status) == DeleteHelper(AfterOne(old(Value()), id), parent.value, false, true, true);
        deleted := [id] + deleted;
      }
    }

    method DeleteImageByID(id: ID, force: bool, prune: bool) returns (status: Status, deleted: seq<ID>)
      modifies this`store, this`refs, this`untagged
      ensures Outcome(Value(), deleted, status) == DeleteByID(old(Value()), id, force, prune)
      ensures forall r :: r in untagged <==> r in old(refs) && r !in refs
    {
      untagged := [];
      var list := ListReferences(id);
      var single := IsSingleReference(list);
      SingleIsSingle(list, References(refs, id));
      if single {
        var conflict := CheckConflict(Value(), id, UntagMask(force));
        if conflict.Some? {
          return DeleteConflict(conflict.value), [];
        }
        RemoveRefs(list);
        assert refs == WithoutRefsTo(old(refs), id);
      }
      status, deleted := ImageDeleteHelper(id, force, prune, false);
    }

    method DeleteImageByName(id: ID, parsed: Option<Ref>, force: bool, prune: bool) returns (status: Status, deleted: seq<ID>)
      modifies this`store, this`refs, this`untagged
      ensures Outcome(Value(), deleted, status) == DeleteByName(old(Value()), id, parsed, force, prune)
      ensures if Refused(status) then untagged == []
              else parsed.Some? && RecordsName(old(Value()), parsed.value, untagged, refs)
    {
      untagged := [];
      var list := ListReferences(id);
      var single := IsSingleReference(list);
      SingleIsSingle(list, References(refs, id));
      if !force && single && (InUse(Value(), id, true) || InUse(Value(), id, false)) {
        return ReferenceConflict, [];
      }
      if parsed.None? {
        return BadReference, [];
      }
      var found := RemoveNamed(id, parsed.value);
      if !found {
        return NoSuchReference, [];
      }
      if References(refs, id) != {} {
        return Done, [];
      }
      HelperStatus(Value(), id, force, prune, true);
      status, deleted := ImageDeleteHelper(id, force, prune, true);
    }

    /** Removes the named reference and the digests that go with it. */
    method RemoveNamed(id: ID, parsed: Ref) returns (found: bool)
      requires untagged == []
      modifies this`refs, this`untagged
      ensures found <==> LeftByName(old(Value()), id, Some(parsed)).Some?
      ensures found ==> refs == LeftByName(old(Value()), id, Some(parsed)).value
      ensures found ==> RecordsName(old(Value()), parsed, untagged, refs)
      ensures !found ==> refs == old(refs) && untagged == []
    {
      MatchIsResolved(refs, defaultRegistries, parsed);
      found := RemoveImageRef(parsed);
      if found {
        untagged := [parsed];
        RemoveOrphanedDigests(id, parsed);
      }
    }

    /** After a tag is gone, drops the digest references its repository leaves behind. */
    method RemoveOrphanedDigests(id: ID, removed: Ref)
      modifies this`refs, this`untagged
      ensures refs == old(refs) - OrphanedDigests(old(refs), id, removed)
      ensures Records(old(untagged), old(refs), untagged, refs)
    {
      var list := ListReferences(id);
      var foundTag := removed.Canonical?;
      for i := 0 to |list|
        invariant foundTag <==> removed.Canonical? || exists k :: 0 <= k < i && list[k].Tagged? && list[k].name == removed.name
      {
        if list[i].Tagged? && list[i].name == removed.name {
          foundTag := true;
        }
      }
      if foundTag {
        assert OrphanedDigests(refs, id, removed) == {};
        assert refs - {} == refs;
        return;
      }
      var drop: seq<Ref> := [];
      for i := 0 to |list|
        invariant forall r :: r in drop <==> r in list[..i] && GoesWith(removed, r)
        invariant forall j, k :: 0 <= j < k < |drop| ==> drop[j] != drop[k]
      {
        var r := list[i];
        assert r !in list[..i];
        assert list[..i + 1] == list[..i] + [r];
        if GoesWith(removed, r) {
          drop := drop + [r];
        }
      }
      assert list[..|list|] == list;
      assert RefSet(drop) == OrphanedDigests(refs, id, removed);
      RemoveRefs(drop);
    }
  }

  /** The loop over the listed references decides the property of their set. */
  lemma SingleIsSingle(list: seq<Ref>, rs: set<Ref>)
    requires Lists(list, rs)
    ensures SingleRepository(rs) <==>
            && list != []
            && (forall i, j :: 0 <= i < |list| && 0 <= j < |list| ==> list[i].name == list[j].name)
            && (forall i, j :: 0 <= i < j < |list| ==> !(list[i].Tagged? && list[j].Tagged?))
  {
    if list != [] {
      assert list[0] in rs;
    }
    assert forall i :: 0 <= i < |list| ==> list[i] in rs;
  }
}
