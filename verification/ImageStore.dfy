/**
 The image store: an in-memory index (layers held, children sets, digest set)
 kept beside a backend that holds image configurations and parent metadata.
 */
module ImageStore {
  import opened Common
  import opened ParentChains

  type DiffID = string

  /** A chain ID is determined by the diff IDs of the layers up to it. */
  datatype ChainID = ChainID(diffIDs: seq<DiffID>)

  /**
   An image configuration.  `digest` is the digest of its bytes, `parses` says
   whether they decode, and `emptyLayer` has one flag per history entry.
   */
  datatype Config = Config(digest: ID, parses: bool, emptyLayer: seq<bool>, diffIDs: seq<DiffID>)

  /** The chain ID of the root file system; none when it has no layers. */
  function LayerOf(c: Config): Option<ChainID>
  {
    if c.diffIDs == [] then None else Some(ChainID(c.diffIDs))
  }

  function NonEmptyLayers(flags: seq<bool>): nat
  {
    if flags == [] then 0
    else NonEmptyLayers(flags[..|flags| - 1]) + if flags[|flags| - 1] then 0 else 1
  }

  datatype ImageMeta = ImageMeta(layer: Option<ChainID>, children: set<ID>)

  /** The backend (content, parents), the index, and the layer references held. */
  datatype State = State(
    content: map<ID, Config>,
    parents: Parents,
    images: map<ID, ImageMeta>,
    digests: set<ID>,
    layerRefs: multiset<ChainID>)

  datatype Error = BadConfig | TooManyLayers | WriteFailed | LayerUnavailable | DigestRejected
                 | UnknownParent | NoContent | Unrecognized | ReleaseFailed

  /** The backend only returns content whose digest is the ID it is filed under. */
  predicate Readable(content: map<ID, Config>, id: ID)
  {
    id in content && content[id].digest == id
  }

  predicate Usable(content: map<ID, Config>, id: ID)
  {
    Readable(content, id) && content[id].parses
  }

  function ParentOf(s: State, id: ID): Option<ID>
  {
    if Readable(s.content, id) && id in s.parents then Some(s.parents[id]) else None
  }

  // ---- what every operation keeps ----

  ghost predicate ChildrenAgree(s: State)
  {
    forall a, b {:trigger b in s.images[a].children} {:trigger ParentOf(s, b), s.images[a]} :: a in s.images ==>
      (b in s.images[a].children <==> b in s.images && ParentOf(s, b) == Some(a))
  }

  /** The same for the images in `entered` only, while the sets are being filled. */
  ghost predicate ChildrenEntered(s: State, entered: set<ID>)
  {
    forall a, b {:trigger b in s.images[a].children} {:trigger ParentOf(s, b), s.images[a]} :: a in s.images ==>
      (b in s.images[a].children <==> b in entered && ParentOf(s, b) == Some(a))
  }

  /** Enters id in the children set of its parent, if that is stored. */
  function EnterChild(s: State, id: ID): map<ID, ImageMeta>
  {
    var p := ParentOf(s, id);
    if p.Some? && p.value in s.images then AddChild(s.images, p.value, id) else s.images
  }

  lemma EnterOne(s: State, entered: set<ID>, id: ID)
    requires ChildrenEntered(s, entered)
    ensures ChildrenEntered(s.(images := EnterChild(s, id)), entered + {id})
  {
  }

  ghost predicate NoDangling(s: State)
  {
    forall b :: b in s.parents ==> b in s.images && s.parents[b] in s.images
  }

  ghost function Holders(images: map<ID, ImageMeta>, c: ChainID): set<ID>
  {
    set id | id in images && images[id].layer == Some(c)
  }

  /** One outstanding layer reference for every stored image with that layer. */
  ghost predicate LayersBalanced(images: map<ID, ImageMeta>, refs: multiset<ChainID>)
  {
    forall c {:trigger Holders(images, c)} :: refs[c] == |Holders(images, c)|
  }

  /** The index agrees with the backend. */
  ghost predicate IndexAgrees(s: State)
  {
    && (forall id :: id in s.images ==> Usable(s.content, id))
    && ChildrenAgree(s)
    && NoDangling(s)
    && s.digests == s.images.Keys
  }

  ghost predicate Consistent(s: State)
  {
    && IndexAgrees(s)
    && LayersBalanced(s.images, s.layerRefs)
    && Acyclic(s.parents)
  }

  // ---- the operations on states ----

  function AddChild(images: map<ID, ImageMeta>, a: ID, b: ID): map<ID, ImageMeta>
    requires a in images
  {
    images[a := images[a].(children := images[a].children + {b})]
  }

  function DropChild(images: map<ID, ImageMeta>, a: Option<ID>, b: ID): map<ID, ImageMeta>
  {
    if a.Some? && a.value in images
    then images[a.value := images[a.value].(children := images[a.value].children - {b})]
    else images
  }

  function AddRef(refs: multiset<ChainID>, layer: Option<ChainID>): multiset<ChainID>
  {
    if layer.Some? then refs + multiset{layer.value} else refs
  }

  function DropRef(refs: multiset<ChainID>, layer: Option<ChainID>): multiset<ChainID>
  {
    if layer.Some? then refs - multiset{layer.value} else refs
  }

  /** writeOK, layerOK and digestOK are the outcomes of the backend, the layer store and the digest set. */
  function CreateState(s: State, c: Config, writeOK: bool, layerOK: bool, digestOK: bool): (State, Result<ID, Error>)
  {
    if !c.parses then (s, Err(BadConfig))
    else if NonEmptyLayers(c.emptyLayer) > |c.diffIDs| then (s, Err(TooManyLayers))
    else if !writeOK then (s, Err(WriteFailed))
    else
      var written := s.(content := s.content[c.digest := c]);
      if c.digest in s.images then (written, Ok(c.digest))
      else if LayerOf(c).Some? && !layerOK then (written, Err(LayerUnavailable))
      else
        var held := written.(layerRefs := AddRef(s.layerRefs, LayerOf(c)));
        if !digestOK then (held, Err(DigestRejected))
        else (held.(images := s.images[c.digest := ImageMeta(LayerOf(c), {})],
                    digests := s.digests + {c.digest}), Ok(c.digest))
  }

  function SetParentState(s: State, id: ID, parent: ID): (State, Result<(), Error>)
  {
    if parent !in s.images then (s, Err(UnknownParent))
    else
      var moved := s.(images := AddChild(DropChild(s.images, ParentOf(s, id), id), parent, id));
      if !Readable(s.content, id) then (moved, Err(NoContent))
      else (moved.(parents := s.parents[id := parent]), Ok(()))
  }

  function DeleteState(s: State, id: ID): (State, Result<(), Error>)
  {
    if id !in s.images then (s, Err(Unrecognized))
    else
      var orphaned := s.(parents := s.parents - s.images[id].children);
      (State(s.content - {id},
             orphaned.parents - {id},
             DropChild(s.images, ParentOf(orphaned, id), id) - {id},
             s.digests - {id},
             DropRef(s.layerRefs, s.images[id].layer)), Ok(()))
  }

  // ---- layer references ----

  lemma BalancedAdd(images: map<ID, ImageMeta>, refs: multiset<ChainID>, id: ID, meta: ImageMeta)
    requires id !in images && LayersBalanced(images, refs)
    ensures LayersBalanced(images[id := meta], AddRef(refs, meta.layer))
  {
    forall c ensures AddRef(refs, meta.layer)[c] == |Holders(images[id := meta], c)| {
      HoldersAdd(images, id, meta, c);
    }
  }

  lemma HoldersAdd(images: map<ID, ImageMeta>, id: ID, meta: ImageMeta, c: ChainID)
    requires id !in images
    ensures |Holders(images[id := meta], c)| == |Holders(images, c)| + if meta.layer == Some(c) then 1 else 0
  {
    var before, after := Holders(images, c), Holders(images[id := meta], c);
    assert after == if meta.layer == Some(c) then before + {id} else before;
  }

  lemma BalancedDrop(images: map<ID, ImageMeta>, refs: multiset<ChainID>, id: ID)
    requires id in images && LayersBalanced(images, refs)
    ensures LayersBalanced(images - {id}, DropRef(refs, images[id].layer))
  {
    forall c ensures DropRef(refs, images[id].layer)[c] == |Holders(images - {id}, c)| {
      if images[id].layer == Some(c) {
        assert Holders(images, c) == Holders(images - {id}, c) + {id};
      } else {
        assert Holders(images - {id}, c) == Holders(images, c);
      }
    }
  }

  /** Balance looks at the layers, never at the children sets. */
  lemma BalancedFrame(a: map<ID, ImageMeta>, b: map<ID, ImageMeta>, refs: multiset<ChainID>)
    requires a.Keys == b.Keys && forall id :: id in a ==> a[id].layer == b[id].layer
    requires LayersBalanced(a, refs)
    ensures LayersBalanced(b, refs)
  {
    forall c ensures refs[c] == |Holders(b, c)| {
      assert Holders(a, c) == Holders(b, c);
    }
  }

  // ---- each operation on a consistent store ----

  /** A new image with layers is turned down by the digest set after its layer was taken. */
  predicate LeaksLayer(s: State, c: Config, writeOK: bool, layerOK: bool, digestOK: bool)
  {
    && c.parses && NonEmptyLayers(c.emptyLayer) <= |c.diffIDs| && writeOK
    && c.digest !in s.images && LayerOf(c).Some? && layerOK && !digestOK
  }

  /** Creating an image keeps the store consistent except when it leaks a layer reference. */
  lemma CreateConsistent(s: State, c: Config, writeOK: bool, layerOK: bool, digestOK: bool)
    requires Consistent(s)
    ensures var r := CreateState(s, c, writeOK, layerOK, digestOK);
            Consistent(r.0) <==> !LeaksLayer(s, c, writeOK, layerOK, digestOK)
  {
    CreateIndex(s, c, writeOK, layerOK, digestOK);
    CreateBalanced(s, c, writeOK, layerOK, digestOK);
  }

  lemma CreateBalanced(s: State, c: Config, writeOK: bool, layerOK: bool, digestOK: bool)
    requires LayersBalanced(s.images, s.layerRefs)
    ensures var r := CreateState(s, c, writeOK, layerOK, digestOK);
            LayersBalanced(r.0.images, r.0.layerRefs) <==> !LeaksLayer(s, c, writeOK, layerOK, digestOK)
  {
    var r := CreateState(s, c, writeOK, layerOK, digestOK);
    if r.1 == Err(DigestRejected) {
      assert r.0.images == s.images && r.0.layerRefs == AddRef(s.layerRefs, LayerOf(c));
      if LayerOf(c).Some? {
        ExtraRefUnbalances(s.images, s.layerRefs, LayerOf(c).value);
      }
    } else if r.1.Ok? && c.digest !in s.images {
      BalancedAdd(s.images, s.layerRefs, c.digest, ImageMeta(LayerOf(c), {}));
    } else {
      assert r.0.images == s.images && r.0.layerRefs == s.layerRefs;
    }
  }

  lemma ExtraRefUnbalances(images: map<ID, ImageMeta>, refs: multiset<ChainID>, l: ChainID)
    requires LayersBalanced(images, refs)
    ensures !LayersBalanced(images, AddRef(refs, Some(l)))
  {
    assert AddRef(refs, Some(l))[l] == |Holders(images, l)| + 1;
  }

  lemma CreateIndex(s: State, c: Config, writeOK: bool, layerOK: bool, digestOK: bool)
    requires IndexAgrees(s)
    ensures var t := CreateState(s, c, writeOK, layerOK, digestOK).0;
            IndexAgrees(t) && t.parents == s.parents
  {
    var t := CreateState(s, c, writeOK, layerOK, digestOK).0;
    if c.parses && NonEmptyLayers(c.emptyLayer) <= |c.diffIDs| && writeOK {
      var written := s.(content := s.content[c.digest := c]);
      WriteIndex(s, c);
      if c.digest !in s.images && (LayerOf(c).None? || layerOK) && digestOK {
        EnterIndex(written, c.digest, LayerOf(c));
        IndexIgnoresRefs(written.(images := t.images, digests := t.digests), t.layerRefs);
      } else {
        IndexIgnoresRefs(written, t.layerRefs);
      }
    }
  }

  lemma IndexIgnoresRefs(s: State, refs: multiset<ChainID>)
    requires IndexAgrees(s)
    ensures IndexAgrees(s.(layerRefs := refs))
  {
  }

  lemma WriteIndex(s: State, c: Config)
    requires IndexAgrees(s) && c.parses
    ensures IndexAgrees(s.(content := s.content[c.digest := c]))
  {
  }

  lemma EnterIndex(s: State, id: ID, layer: Option<ChainID>)
    requires IndexAgrees(s) && id !in s.images && Usable(s.content, id)
    ensures IndexAgrees(s.(images := s.images[id := ImageMeta(layer, {})], digests := s.digests + {id}))
  {
  }

  /**
   Setting a parent keeps the store consistent exactly when the image is stored
   and is neither the new parent nor one of its ancestors.
   */
  lemma SetParentConsistent(s: State, id: ID, parent: ID)
    requires Consistent(s) && parent in s.images
    ensures Consistent(SetParentState(s, id, parent).0) <==>
            id in s.images && !IsAncestor(s.parents, id, parent)
  {
    var t := SetParentState(s, id, parent).0;
    RelinkAcyclic(s.parents, id, parent);
    if id !in s.images {
      assert id in t.images[parent].children;
      if ChildrenAgree(t) {
        assert id in t.images;
      }
    } else {
      BalancedFrame(s.images, t.images, s.layerRefs);
      SetParentChildren(s, id, parent);
    }
  }

  lemma SetParentChildren(s: State, id: ID, parent: ID)
    requires Consistent(s) && parent in s.images && id in s.images
    ensures ChildrenAgree(SetParentState(s, id, parent).0)
  {
  }

  /** Deleting an image always keeps the store consistent. */
  lemma DeleteConsistent(s: State, id: ID)
    requires Consistent(s)
    ensures Consistent(DeleteState(s, id).0)
  {
    if id in s.images {
      var t := DeleteState(s, id).0;
      SubmapAcyclic(s.parents, t.parents);
      BalancedDrop(s.images, s.layerRefs, id);
      BalancedFrame(s.images - {id}, t.images, t.layerRefs);
      NotOwnChild(s, id);
      DeleteIndex(s, id);
    }
  }

  lemma NotOwnChild(s: State, id: ID)
    requires Consistent(s) && id in s.images
    ensures id !in s.images[id].children
  {
    NoSelfAncestor(s.parents, id, 1);
    if id in s.parents {
      assert Ancestor(s.parents, s.parents[id], 0) == Some(s.parents[id]);
    }
  }

  lemma DeleteIndex(s: State, id: ID)
    requires IndexAgrees(s) && id in s.images && id !in s.images[id].children
    ensures IndexAgrees(DeleteState(s, id).0)
  {
    var t := DeleteState(s, id).0;
    var orphaned := s.(parents := s.parents - s.images[id].children);
    assert ParentOf(orphaned, id) == ParentOf(s, id);
    forall a, b | a in t.images
      ensures b in t.images[a].children <==> b in t.images && ParentOf(t, b) == Some(a)
    {
      assert b in s.images[a].children <==> b in s.images && ParentOf(s, b) == Some(a);
      if b != id {
        assert b in t.images[a].children <==> b in s.images[a].children;
        assert b in s.images[id].children <==> b in s.images && ParentOf(s, b) == Some(id);
      }
    }
    forall b | b in t.parents ensures b in t.images && t.parents[b] in t.images {
      assert b !in s.images[id].children;
      assert ParentOf(s, b) != Some(id);
    }
  }

  // ---- what each operation does ----

  /** The layers a history lists: its entries that are not marked empty. */
  lemma {:induction false} NonEmptyCounts(flags: seq<bool>)
    ensures NonEmptyLayers(flags) == |set i | 0 <= i < |flags| && !flags[i]|
  {
    if flags != [] {
      var n := |flags| - 1;
      NonEmptyCounts(flags[..n]);
      var before, all := set i | 0 <= i < n && !flags[..n][i], set i | 0 <= i < |flags| && !flags[i];
      assert all == if flags[n] then before else before + {n};
    }
  }

  /**
   An image is created exactly when its configuration decodes and lists no more
   layers than it has, the backend takes it and, unless it is there already, its
   layer is available and its digest accepted.  It is then stored with its own
   content and layer; no other image changes, and none does if it fails.
   */
  lemma CreateExactly(s: State, c: Config, writeOK: bool, layerOK: bool, digestOK: bool)
    ensures var (t, r) := CreateState(s, c, writeOK, layerOK, digestOK);
            && (r.Ok? <==> && c.parses && |set i | 0 <= i < |c.emptyLayer| && !c.emptyLayer[i]| <= |c.diffIDs| && writeOK
                           && (c.digest in s.images || ((c.diffIDs == [] || layerOK) && digestOK)))
            && (r.Ok? ==> r.value == c.digest && c.digest in t.images && t.content == s.content[c.digest := c])
            && (r.Ok? && c.digest !in s.images ==>
                  t.images == s.images[c.digest := ImageMeta(if c.diffIDs == [] then None else Some(ChainID(c.diffIDs)), {})])
            && (r.Err? || c.digest in s.images ==> t.images == s.images)
  {
    NonEmptyCounts(c.emptyLayer);
  }

  /**
   Why a creation fails, by the first check that does; from the layer on, the
   content has been written all the same.
   */
  lemma CreateFails(s: State, c: Config, writeOK: bool, layerOK: bool, digestOK: bool)
    ensures var (t, r) := CreateState(s, c, writeOK, layerOK, digestOK);
            var fits := |set i | 0 <= i < |c.emptyLayer| && !c.emptyLayer[i]| <= |c.diffIDs|;
            match r
            case Ok(_) => true
            case Err(BadConfig) => !c.parses && t == s
            case Err(TooManyLayers) => c.parses && !fits && t == s
            case Err(WriteFailed) => c.parses && fits && !writeOK && t == s
            case Err(LayerUnavailable) => writeOK && c.diffIDs != [] && !layerOK && t == s.(content := s.content[c.digest := c])
            case Err(DigestRejected) => writeOK && !digestOK && t.content == s.content[c.digest := c]
            case Err(_) => false
  {
    NonEmptyCounts(c.emptyLayer);
  }

  /** A parent is set exactly when it is stored and the image can be read; an unknown parent changes nothing. */
  lemma SetParentExactly(s: State, id: ID, parent: ID)
    ensures var (t, r) := SetParentState(s, id, parent);
            && (r.Ok? <==> parent in s.images && id in s.content && s.content[id].digest == id)
            && (r.Ok? ==> t.parents == s.parents[id := parent])
            && (parent !in s.images ==> t == s)
            && t.content == s.content && t.layerRefs == s.layerRefs && t.digests == s.digests
  {
  }

  // ---- what the operations do to each other ----

  /** Deleting an image just created gives back the store as it was. */
  lemma DeleteUndoesCreate(s: State, c: Config, writeOK: bool, layerOK: bool, digestOK: bool)
    requires Consistent(s) && c.digest !in s.content
    requires CreateState(s, c, writeOK, layerOK, digestOK).1.Ok?
    ensures c.digest in CreateState(s, c, writeOK, layerOK, digestOK).0.images
    ensures DeleteState(CreateState(s, c, writeOK, layerOK, digestOK).0, c.digest) == (s, Ok(()))
  {
    var id, t := c.digest, CreateState(s, c, writeOK, layerOK, digestOK).0;
    var u := DeleteState(t, id).0;
    assert id !in s.images && id !in s.parents;
    assert t.parents - t.images[id].children == s.parents;
    assert u.content == s.content && u.parents == s.parents && u.digests == s.digests;
    assert u.images == s.images;
    assert u.layerRefs == s.layerRefs;
  }

  /** Setting a parent twice is setting it the second time only. */
  lemma LastParentWins(s: State, id: ID, a: ID, b: ID)
    requires Consistent(s) && id in s.images && a in s.images && b in s.images
    ensures ParentOf(SetParentState(s, id, a).0, id) == Some(a)
    ensures SetParentState(SetParentState(s, id, a).0, id, b) == SetParentState(s, id, b)
  {
    var t := SetParentState(s, id, a).0;
    var u, v := SetParentState(t, id, b).0, SetParentState(s, id, b).0;
    assert u.parents == v.parents;
    forall x | x in u.images ensures x in v.images && u.images[x] == v.images[x] {
      assert id in s.images[x].children <==> ParentOf(s, id) == Some(x);
    }
    assert u.images == v.images;
  }

  /** Deleting an image leaves its children without a parent and every other parent as it was. */
  lemma DeleteOrphansChildren(s: State, id: ID, b: ID)
    requires Consistent(s) && id in s.images && b in s.images && b != id
    ensures var t := DeleteState(s, id).0;
            b in t.images && t.images[b].layer == s.images[b].layer &&
            ParentOf(t, b) == if ParentOf(s, b) == Some(id) then None else ParentOf(s, b)
  {
    assert b in s.images[id].children <==> ParentOf(s, b) == Some(id);
  }

  // ---- restoring from the backend ----

  ghost function UsableIDs(content: map<ID, Config>): set<ID>
  {
    set id | id in content && Usable(content, id)
  }

  /** The index rebuilt from a backend. */
  ghost predicate Restored(content: map<ID, Config>, parents: Parents, s: State)
  {
    && s.content == content && s.parents == parents
    && s.images.Keys == UsableIDs(content) && s.digests == UsableIDs(content)
    && (forall id :: id in s.images ==> s.images[id].layer == LayerOf(content[id]))
    && LayersBalanced(s.images, s.layerRefs)
    && ChildrenAgree(s)
  }

  /** The layer store and the digest set accept the image. */
  predicate Accepted(c: Config, available: set<ChainID>, rejected: set<ID>)
  {
    c.digest !in rejected && (LayerOf(c).Some? ==> LayerOf(c).value in available)
  }

  /** The backend names only usable images and its parent chains end. */
  ghost predicate SoundBackend(content: map<ID, Config>, parents: Parents)
  {
    && (forall b :: b in parents ==> b in UsableIDs(content) && parents[b] in UsableIDs(content))
    && Acyclic(parents)
  }

  /** A restored store is consistent exactly when its backend is sound. */
  lemma RestoredConsistent(content: map<ID, Config>, parents: Parents, s: State)
    requires Restored(content, parents, s)
    ensures Consistent(s) <==> SoundBackend(content, parents)
  {
  }

  /** Restoring indexes exactly what decodes and is filed under its own digest. */
  lemma RestoredIndexes(content: map<ID, Config>, parents: Parents, s: State, id: ID)
    requires Restored(content, parents, s)
    ensures id in s.images <==> id in content && content[id].digest == id && content[id].parses
    ensures id in s.images ==>
              s.images[id].layer == if content[id].diffIDs == [] then None else Some(ChainID(content[id].diffIDs))
  {
    assert id in UsableIDs(content) <==> id in content && Usable(content, id);
  }

  // ---- restarting ----

  /** The backend determines the restored index. */
  lemma RestoredUnique(content: map<ID, Config>, parents: Parents, s: State, t: State)
    requires Restored(content, parents, s) && Restored(content, parents, t)
    ensures s == t
  {
    forall a | a in s.images ensures s.images[a] == t.images[a] {
      forall b ensures b in s.images[a].children <==> b in t.images[a].children {
        assert ParentOf(s, b) == ParentOf(t, b);
        assert b in s.images[a].children <==> b in s.images && ParentOf(s, b) == Some(a);
        assert b in t.images[a].children <==> b in t.images && ParentOf(t, b) == Some(a);
      }
    }
    assert s.images == t.images;
    forall c ensures s.layerRefs[c] == t.layerRefs[c] {
      assert s.layerRefs[c] == |Holders(s.images, c)|;
    }
    assert s.layerRefs == t.layerRefs;
  }

  /** A consistent store leaves a sound backend, so that it is consistent again after a restart. */
  lemma RestartConsistent(s: State, t: State)
    requires Consistent(s) && Restored(s.content, s.parents, t)
    ensures SoundBackend(s.content, s.parents) && Consistent(t)
    ensures s.images.Keys <= t.images.Keys && forall id :: ParentOf(t, id) == ParentOf(s, id)
  {
    forall id | id in s.images ensures id in UsableIDs(s.content) {
      assert Usable(s.content, id);
    }
    RestoredConsistent(s.content, s.parents, t);
  }

  /** If every usable image is indexed with its layer, a restart gives back the very same index. */
  lemma RestartIdentity(s: State, t: State)
    requires Consistent(s) && Restored(s.content, s.parents, t)
    requires s.images.Keys == UsableIDs(s.content)
    requires forall id :: id in s.images ==> s.images[id].layer == LayerOf(s.content[id])
    ensures t == s
  {
    RestoredUnique(s.content, s.parents, s, t);
  }

  // ---- whole runs ----

  datatype Op =
    | Create(config: Config, writeOK: bool, layerOK: bool, digestOK: bool)
    | SetParent(id: ID, parent: ID)
    | Delete(target: ID)
    | Restart

  /** A step from s to t; a restart rebuilds the index from the backend. */
  ghost predicate Step(s: State, op: Op, t: State)
  {
    match op
    case Create(c, writeOK, layerOK, digestOK) => t == CreateState(s, c, writeOK, layerOK, digestOK).0
    case SetParent(id, parent) => t == SetParentState(s, id, parent).0
    case Delete(id) => t == DeleteState(s, id).0
    case Restart => Restored(s.content, s.parents, t)
  }

  /** What a caller has to check before an operation. */
  ghost predicate Admissible(s: State, op: Op)
  {
    match op
    case Create(c, writeOK, layerOK, digestOK) => !LeaksLayer(s, c, writeOK, layerOK, digestOK)
    case SetParent(id, parent) =>
      parent in s.images ==> id in s.images && !IsAncestor(s.parents, id, parent)
    case Delete(_) => true
    case Restart => true
  }

  /** The states a sequence of operations goes through. */
  ghost predicate Run(states: seq<State>, ops: seq<Op>)
  {
    |states| == |ops| + 1 && forall i :: 0 <= i < |ops| ==> Step(states[i], ops[i], states[i + 1])
  }

  /** A step keeps a consistent store consistent exactly when it is admissible. */
  lemma StepConsistent(s: State, op: Op, t: State)
    requires Consistent(s) && Step(s, op, t)
    ensures Consistent(t) <==> Admissible(s, op)
  {
    match op
    case Create(c, writeOK, layerOK, digestOK) => CreateConsistent(s, c, writeOK, layerOK, digestOK);
    case SetParent(id, parent) => if parent in s.images { SetParentConsistent(s, id, parent); }
    case Delete(id) => DeleteConsistent(s, id);
    case Restart => RestartConsistent(s, t);
  }

  /**
   In every run that starts consistent, every state is consistent as long as the
   operations are admissible, and the first that is not ends it.
   */
  lemma {:induction false} RunConsistent(states: seq<State>, ops: seq<Op>, n: nat)
    requires Run(states, ops) && Consistent(states[0]) && n <= |ops|
    ensures (forall i :: 0 <= i <= n ==> Consistent(states[i])) <==> forall i :: 0 <= i < n ==> Admissible(states[i], ops[i])
    decreases n
  {
    if n > 0 {
      RunConsistent(states, ops, n - 1);
      if Consistent(states[n - 1]) {
        assert Step(states[n - 1], ops[n - 1], states[n - 1 + 1]);
        StepConsistent(states[n - 1], ops[n - 1], states[n]);
      }
    }
  }

  /** In a consistent store the heads are the stored images nobody names as parent. */
  lemma HeadsAreLeaves(s: State, id: ID)
    requires Consistent(s) && id in s.images
    ensures s.images[id].children == {} <==>
            forall b :: b in s.images ==> ParentOf(s, b) != Some(id)
  {
  }

  // ---- the store itself ----

  class Store {
    var content: map<ID, Config>
    var parents: Parents
    var images: map<ID, ImageMeta>
    var digests: set<ID>
    var layerRefs: multiset<ChainID>

    ghost function Value(): State
      reads this
    {
      State(content, parents, images, digests, layerRefs)
    }

    /** A store over a backend, with nothing indexed yet. */
    constructor (content: map<ID, Config>, parents: Parents)
      ensures this.content == content && this.parents == parents
      ensures images == map[] && digests == {} && layerRefs == multiset{}
    {
      this.content := content;
      this.parents := parents;
      images := map[];
      digests := {};
      layerRefs := multiset{};
    }

    /**
     Rebuilds the index from the backend.  `available` is what the layer store
     can hand out and `rejected` what the digest set refuses; either can fail
     the whole restore.
     */
    method Restore(available: set<ChainID>, rejected: set<ID>) returns (ok: bool)
      requires images == map[] && digests == {} && layerRefs == multiset{}
      modifies this
      ensures content == old(content) && parents == old(parents)
      ensures ok <==> forall id :: id in UsableIDs(content) ==>
                id !in rejected && (content[id].diffIDs != [] ==> ChainID(content[id].diffIDs) in available)
      ensures ok ==> Restored(content, parents, Value())
    {
      ok := LoadImages(available, rejected);
      if ok {
        FillChildren();
      }
    }

    /** First pass: index every readable image and retain its layer. */
    method LoadImages(available: set<ChainID>, rejected: set<ID>) returns (ok: bool)
      requires images == map[] && digests == {} && layerRefs == multiset{}
      modifies this
      ensures content == old(content) && parents == old(parents)
      ensures ok <==> forall id :: id in UsableIDs(content) ==> Accepted(content[id], available, rejected)
      ensures ok ==> images.Keys == UsableIDs(content) && digests == images.Keys
      ensures ok ==> LayersBalanced(images, layerRefs)
      ensures forall id :: id in images ==> id in content && images[id] == ImageMeta(LayerOf(content[id]), {})
    {
      var todo := content.Keys;
      while todo != {}
        invariant content == old(content) && parents == old(parents)
        invariant todo <= content.Keys
        invariant images.Keys == UsableIDs(content) - todo && digests == images.Keys
        invariant forall id :: id in images ==>
          images[id] == ImageMeta(LayerOf(content[id]), {}) && Accepted(content[id], available, rejected)
        invariant LayersBalanced(images, layerRefs)
        decreases todo
      {
        var id :| id in todo;
        todo := todo - {id};
        if Usable(content, id) {
          assert id in UsableIDs(content);
          var layer := LayerOf(content[id]);
          if layer.Some? && layer.value !in available {
            return false;
          }
          if id in rejected {
            return false;
          }
          AddLoaded(id, layer);
        }
      }
      ok := true;
    }

    method AddLoaded(id: ID, layer: Option<ChainID>)
      requires id !in images && LayersBalanced(images, layerRefs)
      modifies this`images, this`digests, this`layerRefs
      ensures images == old(images)[id := ImageMeta(layer, {})]
      ensures digests == old(digests) + {id}
      ensures LayersBalanced(images, layerRefs)
    {
      BalancedAdd(images, layerRefs, id, ImageMeta(layer, {}));
      layerRefs := AddRef(layerRefs, layer);
      digests := digests + {id};
      images := images[id := ImageMeta(layer, {})];
    }

    /** Second pass: enter every image in the children set of its parent. */
    method FillChildren()
      requires forall id :: id in images ==> images[id].children == {}
      modifies this`images
      ensures images.Keys == old(images).Keys
      ensures forall id :: id in images ==> images[id].layer == old(images)[id].layer
      ensures ChildrenAgree(Value())
      ensures LayersBalanced(old(images), layerRefs) ==> LayersBalanced(images, layerRefs)
    {
      var todo := images.Keys;
      while todo != {}
        invariant todo <= images.Keys == old(images).Keys
        invariant forall id :: id in images ==> images[id].layer == old(images)[id].layer
        invariant ChildrenEntered(Value(), images.Keys - todo)
        decreases todo
      {
        var id :| id in todo;
        EnterOne(Value(), images.Keys - todo, id);
        assert images.Keys - todo + {id} == images.Keys - (todo - {id});
        todo := todo - {id};
        var parent := GetParent(id);
        if parent.Some? && parent.value in images {
          images := AddChild(images, parent.value, id);
        }
      }
      if LayersBalanced(old(images), layerRefs) {
        BalancedFrame(old(images), images, layerRefs);
      }
    }

    function GetParent(id: ID): (p: Option<ID>)
      reads this
      ensures p == ParentOf(Value(), id)
    {
      if id in content && content[id].digest == id && id in parents then Some(parents[id]) else None
    }

    method Create(c: Config, writeOK: bool, layerOK: bool, digestOK: bool) returns (r: Result<ID, Error>)
      modifies this
      ensures (Value(), r) == CreateState(old(Value()), c, writeOK, layerOK, digestOK)
    {
      if !c.parses {
        return Err(BadConfig);
      }
      var layerCounter := 0;
      for i := 0 to |c.emptyLayer|
        invariant layerCounter == NonEmptyLayers(c.emptyLayer[..i])
      {
        assert c.emptyLayer[..i + 1][..i] == c.emptyLayer[..i];
        if !c.emptyLayer[i] {
          layerCounter := layerCounter + 1;
        }
      }
      assert c.emptyLayer[..|c.emptyLayer|] == c.emptyLayer;
      if layerCounter > |c.diffIDs| {
        return Err(TooManyLayers);
      }
      if !writeOK {
        return Err(WriteFailed);
      }
      var id := c.digest;
      content := content[id := c];
      if id in images {
        return Ok(id);
      }
      var layer := LayerOf(c);
      if layer.Some? {
        if !layerOK {
          return Err(LayerUnavailable);
        }
        layerRefs := layerRefs + multiset{layer.value};
      }
      ghost var before := images;
      images := images[id := ImageMeta(layer, {})];
      if !digestOK {
        images := images - {id};
        assert images == before;
        return Err(DigestRejected);
      }
      digests := digests + {id};
      r := Ok(id);
    }

    method SetParent(id: ID, parent: ID) returns (r: Result<(), Error>)
      modifies this
      ensures (Value(), r) == SetParentState(old(Value()), id, parent)
    {
      if parent !in images {
        return Err(UnknownParent);
      }
      var previous := GetParent(id);
      if previous.Some? && previous.value in images {
        images := DropChild(images, previous, id);
      }
      images := AddChild(images, parent, id);
      if !Readable(content, id) {
        return Err(NoContent);
      }
      parents := parents[id := parent];
      r := Ok(());
    }

    /** releaseOK is the outcome of the layer store, which drops the reference in either case. */
    method Delete(id: ID, releaseOK: bool) returns (r: Result<(), Error>)
      modifies this
      ensures Value() == DeleteState(old(Value()), id).0
      ensures r.Ok? <==> id in old(images) && (releaseOK || old(images)[id].layer.None?)
      ensures r.Err? ==> r.error == if id in old(images) then ReleaseFailed else Unrecognized
    {
      var holdsLayer := id in images && images[id].layer.Some?;
      r := Remove(id);
      if holdsLayer && !releaseOK {
        r := Err(ReleaseFailed);
      }
    }

    /** Removes an image from index and backend and lets go of its layer. */
    method Remove(id: ID) returns (r: Result<(), Error>)
      modifies this
      ensures (Value(), r) == DeleteState(old(Value()), id)
    {
      if id !in images {
        return Err(Unrecognized);
      }
      var meta := images[id];
      var todo := meta.children;
      while todo != {}
        invariant todo <= meta.children
        invariant parents == old(parents) - (meta.children - todo)
        invariant content == old(content) && images == old(images)
        invariant digests == old(digests) && layerRefs == old(layerRefs)
        decreases todo
      {
        var child :| child in todo;
        parents := parents - {child};
        todo := todo - {child};
      }
      assert parents == old(parents) - meta.children;
      var parent := GetParent(id);
      images := DropChild(images, parent, id);
      digests := digests - {id};
      images := images - {id};
      content, parents := content - {id}, parents - {id};
      layerRefs := DropRef(layerRefs, meta.layer);
      r := Ok(());
    }

    /** The stored images that can be loaded; without `all`, only those without children. */
    method ImagesMap(all: bool) returns (ids: set<ID>)
      ensures ids == set id | id in images && Usable(content, id) && (all || images[id].children == {})
    {
      ids := {};
      var todo := images.Keys;
      while todo != {}
        invariant todo <= images.Keys
        invariant ids == set id | id in images && id !in todo && Usable(content, id) && (all || images[id].children == {})
        decreases todo
      {
        var id :| id in todo;
        todo := todo - {id};
        if (all || images[id].children == {}) && Usable(content, id) {
          ids := ids + {id};
        }
      }
    }
  }
}
