/**
 The order in which images are uploaded to a v1 registry: the dependency layers
 of every tagged image, shared between tags, each before what is built on it.
 */
module V1Push {
  import opened Common

  datatype ChainID = ChainID(hex: string)
  datatype ImageID = ImageID(hex: string)
  type Tag = string

  /** A layer with the layers below it. */
  datatype Layer = NoLayer | Layer(chainID: ChainID, parent: Layer)

  /** An image to upload, with the dependency its configuration names as parent. */
  datatype V1Image =
    | Dependency(v1ID: ChainID, parent: Option<ChainID>)
    | TopImage(imageID: ImageID, parent: Option<ChainID>)

  type LayerStore = map<ChainID, Layer>

  /** A layer forest: every layer is filed under its chain ID together with its parent. */
  ghost predicate Forest(ls: LayerStore)
  {
    forall c :: c in ls ==>
      ls[c].Layer? && ls[c].chainID == c && Known(ls, ls[c].parent)
  }

  /** l is no layer, or the stored layer with its chain ID. */
  predicate Known(ls: LayerStore, l: Layer)
  {
    l.Layer? ==> l.chainID in ls && ls[l.chainID] == l
  }

  function IDOf(l: Layer): Option<ChainID>
  {
    if l.Layer? then Some(l.chainID) else None
  }

  function DependencyOf(l: Layer): V1Image
    requires l.Layer?
  {
    Dependency(l.chainID, IDOf(l.parent))
  }

  /** The chain IDs of l and the layers below it. */
  function Below(l: Layer): set<ChainID>
  {
    if l.NoLayer? then {} else Below(l.parent) + {l.chainID}
  }

  /** The dependencies of l that are not yet uploaded, base first. */
  function Missing(l: Layer, seen: set<ChainID>): seq<V1Image>
  {
    if l.NoLayer? then []
    else Missing(l.parent, seen) + if l.chainID in seen then [] else [DependencyOf(l)]
  }

  // ---- what a good upload list is ----

  function DependencyIDs(list: seq<V1Image>): set<ChainID>
  {
    set i | 0 <= i < |list| && list[i].Dependency? :: list[i].v1ID
  }

  /** Every image comes after the dependency it is built on. */
  ghost predicate ParentsFirst(list: seq<V1Image>)
  {
    forall i :: 0 <= i < |list| && list[i].parent.Some? ==> list[i].parent.value in DependencyIDs(list[..i])
  }

  /** No dependency and no tagged image is listed twice. */
  ghost predicate NoRepeats(list: seq<V1Image>)
  {
    forall i, j :: 0 <= i < j < |list| ==> !SameUpload(list[i], list[j])
  }

  predicate SameUpload(a: V1Image, b: V1Image)
  {
    || (a.Dependency? && b.Dependency? && a.v1ID == b.v1ID)
    || (a.TopImage? && b.TopImage? && a.imageID == b.imageID)
  }

  /** The layers uploaded so far include what each of them is built on. */
  ghost predicate ParentClosed(ls: LayerStore, seen: set<ChainID>)
  {
    forall c :: c in seen ==> c in ls && (ls[c].Layer? && ls[c].parent.Layer? ==> ls[c].parent.chainID in seen)
  }

  ghost predicate UploadOrder(list: seq<V1Image>)
  {
    ParentsFirst(list) && NoRepeats(list)
  }

  lemma DependencyIDsSnoc(list: seq<V1Image>, x: V1Image)
    ensures DependencyIDs(list + [x]) == DependencyIDs(list) + if x.Dependency? then {x.v1ID} else {}
  {
    var all := list + [x];
    forall c ensures c in DependencyIDs(all) <==> c in DependencyIDs(list) || (x.Dependency? && c == x.v1ID) {
      if c in DependencyIDs(list) {
        var i :| 0 <= i < |list| && list[i].Dependency? && list[i].v1ID == c;
        assert all[i].v1ID == c;
      }
      if x.Dependency? && c == x.v1ID {
        assert all[|list|].v1ID == c;
      }
    }
  }

  lemma UploadOrderSnoc(list: seq<V1Image>, x: V1Image)
    requires UploadOrder(list)
    requires x.parent.Some? ==> x.parent.value in DependencyIDs(list)
    requires forall i :: 0 <= i < |list| ==> !SameUpload(list[i], x)
    ensures UploadOrder(list + [x])
  {
    var all := list + [x];
    forall i | 0 <= i < |all| && all[i].parent.Some? ensures all[i].parent.value in DependencyIDs(all[..i]) {
      assert all[..i] == list[..i];
      if i == |list| {
        assert list[..i] == list;
      }
    }
  }

  lemma ClosedBelow(ls: LayerStore, seen: set<ChainID>, l: Layer)
    requires Forest(ls) && ParentClosed(ls, seen) && Known(ls, l)
    requires l.Layer? ==> l.chainID in seen
    ensures Below(l) <= seen && Missing(l, seen) == []
  {
  }

  /**
   Appending the missing dependencies of a layer keeps a list in upload order
   and completes it for that layer.
   */
  lemma {:induction false} AppendMissing(ls: LayerStore, list: seq<V1Image>, l: Layer)
    requires Forest(ls) && Known(ls, l)
    requires UploadOrder(list) && ParentClosed(ls, DependencyIDs(list))
    ensures var all := list + Missing(l, DependencyIDs(list));
            UploadOrder(all) && ParentClosed(ls, DependencyIDs(all))
            && DependencyIDs(all) == DependencyIDs(list) + Below(l)
  {
    var seen := DependencyIDs(list);
    if l.NoLayer? {
      assert list + Missing(l, seen) == list;
    } else {
      AppendMissing(ls, list, l.parent);
      var before := list + Missing(l.parent, seen);
      if l.chainID in seen {
        ClosedBelow(ls, seen, l);
        assert list + Missing(l, seen) == list == before;
      } else {
        assert list + Missing(l, seen) == before + [DependencyOf(l)];
        NotBelowItself(ls, l);
        InBelow(l.parent);
        AppendDependency(ls, before, l);
      }
    }
  }

  lemma AppendDependency(ls: LayerStore, list: seq<V1Image>, l: Layer)
    requires Forest(ls) && Known(ls, l) && l.Layer?
    requires UploadOrder(list) && ParentClosed(ls, DependencyIDs(list))
    requires l.chainID !in DependencyIDs(list) && (l.parent.Layer? ==> l.parent.chainID in DependencyIDs(list))
    ensures var all := list + [DependencyOf(l)];
            UploadOrder(all) && ParentClosed(ls, DependencyIDs(all))
            && DependencyIDs(all) == DependencyIDs(list) + {l.chainID}
  {
    assert forall i :: 0 <= i < |list| && list[i].Dependency? ==> list[i].v1ID in DependencyIDs(list);
    DependencyIDsSnoc(list, DependencyOf(l));
    UploadOrderSnoc(list, DependencyOf(l));
  }

  lemma InBelow(l: Layer)
    ensures l.Layer? ==> l.chainID in Below(l)
  {
  }

  /** A layer's chain ID does not occur below it. */
  lemma NotBelowItself(ls: LayerStore, l: Layer)
    requires Forest(ls) && Known(ls, l) && l.Layer?
    ensures l.chainID !in Below(l.parent)
  {
    if l.chainID in Below(l.parent) {
      BelowIsSmaller(ls, l.parent, l.chainID);
    }
  }

  lemma {:induction false} BelowIsSmaller(ls: LayerStore, l: Layer, c: ChainID)
    requires Forest(ls) && Known(ls, l) && c in Below(l)
    ensures c in ls && Height(ls[c]) <= Height(l)
  {
    if c != l.chainID {
      BelowIsSmaller(ls, l.parent, c);
    }
  }

  function Height(l: Layer): nat
  {
    if l.NoLayer? then 0 else Height(l.parent) + 1
  }

  // ---- building the list ----

  datatype Association = Association(tag: Option<Tag>, imageID: ImageID)

  datatype Error = NoSuchImage | NoSuchLayer | NothingToPush

  /** The tags of an image among the associations, in order. */
  function TagsOf(assocs: seq<Association>, id: ImageID): seq<Tag>
  {
    if assocs == [] then []
    else
      var last := assocs[|assocs| - 1];
      var rest := TagsOf(assocs[..|assocs| - 1], id);
      if last.tag.Some? && last.imageID == id then rest + [last.tag.value] else rest
  }

  /** An image has exactly the tags associated with it. */
  lemma {:induction false} TagsOfExactly(assocs: seq<Association>, id: ImageID, t: Tag)
    ensures t in TagsOf(assocs, id) <==> exists k :: 0 <= k < |assocs| && assocs[k] == Association(Some(t), id)
  {
    if assocs != [] {
      var n := |assocs| - 1;
      TagsOfExactly(assocs[..n], id, t);
      if k :| 0 <= k < n && assocs[..n][k] == Association(Some(t), id) {
        assert assocs[k] == Association(Some(t), id);
      }
      if k :| 0 <= k < |assocs| && assocs[k] == Association(Some(t), id) {
        assert k < n ==> assocs[..n][k] == Association(Some(t), id);
      }
    }
  }

  /** The tags come in the order of the associations, each as often as it is associated. */
  lemma {:induction false} TagsOfConcat(a: seq<Association>, b: seq<Association>, id: ImageID)
    ensures TagsOf(a + b, id) == TagsOf(a, id) + TagsOf(b, id)
    decreases |b|
  {
    if b == [] {
      assert a + b == a;
    } else {
      var n := |b| - 1;
      var tail := if b[n].tag.Some? && b[n].imageID == id then [b[n].tag.value] else [];
      TagsOfConcat(a, b[..n], id);
      assert (a + b)[..|a| + n] == a + b[..n];
      assert TagsOf(a + b, id) == TagsOf(a + b[..n], id) + tail;
      assert TagsOf(a, id) + TagsOf(b[..n], id) + tail == TagsOf(a, id) + (TagsOf(b[..n], id) + tail);
    }
  }

  function TopIDs(list: seq<V1Image>): set<ImageID>
  {
    set i | 0 <= i < |list| && list[i].TopImage? :: list[i].imageID
  }

  lemma TopIDsSnoc(list: seq<V1Image>, x: V1Image)
    ensures TopIDs(list + [x]) == TopIDs(list) + if x.TopImage? then {x.imageID} else {}
  {
    var all := list + [x];
    forall id ensures id in TopIDs(all) <==> id in TopIDs(list) || (x.TopImage? && id == x.imageID) {
      if id in TopIDs(list) {
        var i :| 0 <= i < |list| && list[i].TopImage? && list[i].imageID == id;
        assert all[i].imageID == id;
      }
      if x.TopImage? && id == x.imageID {
        assert all[|list|].imageID == id;
      }
    }
  }

  lemma {:induction false} TopIDsMissing(list: seq<V1Image>, l: Layer, seen: set<ChainID>)
    ensures TopIDs(list + Missing(l, seen)) == TopIDs(list)
  {
    if l.NoLayer? {
      assert list + Missing(l, seen) == list;
    } else {
      TopIDsMissing(list, l.parent, seen);
      var before := list + Missing(l.parent, seen);
      if l.chainID in seen {
        assert list + Missing(l, seen) == before;
      } else {
        TopIDsSnoc(before, DependencyOf(l));
        assert list + Missing(l, seen) == before + [DependencyOf(l)];
      }
    }
  }

  /** The images uploaded for one tagged image whose top layer lies on l. */
  function ListForTag(id: ImageID, l: Layer, seen: set<ChainID>): seq<V1Image>
  {
    Missing(l, seen) + [TopImage(id, IDOf(l))]
  }

  /**
   Appending the uploads of a tagged image keeps the list in upload order,
   closed under parent, and complete for that image.
   */
  lemma AppendTag(ls: LayerStore, list: seq<V1Image>, id: ImageID, l: Layer)
    requires Forest(ls) && Known(ls, l)
    requires UploadOrder(list) && ParentClosed(ls, DependencyIDs(list)) && id !in TopIDs(list)
    ensures var all := list + ListForTag(id, l, DependencyIDs(list));
            && UploadOrder(all) && ParentClosed(ls, DependencyIDs(all))
            && DependencyIDs(all) == DependencyIDs(list) + Below(l)
            && TopIDs(all) == TopIDs(list) + {id}
  {
    var seen := DependencyIDs(list);
    var before := list + Missing(l, seen);
    var top := TopImage(id, IDOf(l));
    AppendMissing(ls, list, l);
    TopIDsMissing(list, l, seen);
    InBelow(l);
    assert list + ListForTag(id, l, seen) == before + [top];
    assert forall i :: 0 <= i < |before| && before[i].TopImage? ==> before[i].imageID in TopIDs(before);
    UploadOrderSnoc(before, top);
    DependencyIDsSnoc(before, top);
    TopIDsSnoc(before, top);
  }

  /** The layers and top layer of an image that has been looked up. */
  predicate Available(ls: LayerStore, images: map<ImageID, Option<ChainID>>, id: ImageID)
  {
    id in images && (images[id].Some? ==> images[id].value in ls)
  }

  /** The layer below an image's top layer. */
  function Base(ls: LayerStore, images: map<ImageID, Option<ChainID>>, id: ImageID): Layer
    requires Available(ls, images, id)
  {
    if images[id].None? || ls[images[id].value].NoLayer? then NoLayer else ls[images[id].value].parent
  }

  /** The list covers exactly the given images. */
  ghost predicate Covers(ls: LayerStore, images: map<ImageID, Option<ChainID>>, ids: set<ImageID>, list: seq<V1Image>)
  {
    && (forall id :: id in ids ==> Available(ls, images, id))
    && TopIDs(list) == ids
    && forall c :: c in DependencyIDs(list) <==>
                   exists id :: id in ids && Available(ls, images, id) && c in Below(Base(ls, images, id))
  }

  /** The chain ID of the layer below a stored layer. */
  ghost predicate IsBelow(ls: LayerStore, c: ChainID, parent: Option<ChainID>)
  {
    c in ls && ls[c].Layer? && match ls[c].parent case NoLayer => parent == None case Layer(p, _) => parent == Some(p)
  }

  /**
   Every listed image names as parent the layer below its own: a dependency the
   one below its layer, a tagged image the one below its top layer.
   */
  ghost predicate NamesParents(ls: LayerStore, images: map<ImageID, Option<ChainID>>, list: seq<V1Image>)
  {
    forall i :: 0 <= i < |list| ==>
      match list[i]
      case Dependency(c, parent) => IsBelow(ls, c, parent)
      case TopImage(id, parent) =>
        id in images && if images[id].None? then parent == None else IsBelow(ls, images[id].value, parent)
  }

  lemma {:induction false} MissingNamesParents(ls: LayerStore, images: map<ImageID, Option<ChainID>>, l: Layer, seen: set<ChainID>)
    requires Forest(ls) && Known(ls, l)
    ensures NamesParents(ls, images, Missing(l, seen))
  {
    if l.Layer? {
      MissingNamesParents(ls, images, l.parent, seen);
    }
  }

  lemma TagNamesParents(ls: LayerStore, images: map<ImageID, Option<ChainID>>, list: seq<V1Image>, id: ImageID)
    requires Forest(ls) && Available(ls, images, id) && NamesParents(ls, images, list)
    ensures NamesParents(ls, images, list + ListForTag(id, Base(ls, images, id), DependencyIDs(list)))
  {
    MissingNamesParents(ls, images, Base(ls, images, id), DependencyIDs(list));
  }

  /** The layers an image needs uploaded as dependencies are those below its top layer, without it. */
  lemma BelowTop(ls: LayerStore, images: map<ImageID, Option<ChainID>>, id: ImageID)
    requires Forest(ls) && Available(ls, images, id) && images[id].Some?
    ensures var top := images[id].value;
            Below(ls[top]) == Below(Base(ls, images, id)) + {top} && top !in Below(Base(ls, images, id))
  {
    NotBelowItself(ls, ls[images[id].value]);
  }

  /** A known image without layers can be pushed, by itself. */
  lemma LayerlessAlone(ls: LayerStore, images: map<ImageID, Option<ChainID>>, id: ImageID, seen: set<ChainID>)
    requires id in images && images[id] == None
    ensures Available(ls, images, id) && ListForTag(id, Base(ls, images, id), seen) == [TopImage(id, None)]
  {
  }

  lemma CoversOneMore(ls: LayerStore, images: map<ImageID, Option<ChainID>>, ids: set<ImageID>,
                      list: seq<V1Image>, all: seq<V1Image>, id: ImageID)
    requires Covers(ls, images, ids, list) && Available(ls, images, id)
    requires TopIDs(all) == ids + {id}
    requires DependencyIDs(all) == DependencyIDs(list) + Below(Base(ls, images, id))
    ensures Covers(ls, images, ids + {id}, all)
  {
  }

  ghost function TaggedIDs(assocs: seq<Association>): set<ImageID>
  {
    set k | 0 <= k < |assocs| && assocs[k].tag.Some? :: assocs[k].imageID
  }

  lemma TaggedIDsTake(assocs: seq<Association>, i: nat)
    requires i < |assocs|
    ensures TaggedIDs(assocs[..i + 1]) == TaggedIDs(assocs[..i]) + if assocs[i].tag.Some? then {assocs[i].imageID} else {}
  {
  }

  /** The list is a correct upload list for the given images. */
  ghost predicate UploadsFor(ls: LayerStore, images: map<ImageID, Option<ChainID>>, ids: set<ImageID>, list: seq<V1Image>)
  {
    && UploadOrder(list) && ParentClosed(ls, DependencyIDs(list)) && Covers(ls, images, ids, list)
    && NamesParents(ls, images, list)
  }

  lemma UploadsForOneMore(ls: LayerStore, images: map<ImageID, Option<ChainID>>, ids: set<ImageID>, list: seq<V1Image>, id: ImageID)
    requires Forest(ls) && UploadsFor(ls, images, ids, list) && id !in ids && Available(ls, images, id)
    ensures var all := list + ListForTag(id, Base(ls, images, id), DependencyIDs(list));
            UploadsFor(ls, images, ids + {id}, all)
            && DependencyIDs(all) == DependencyIDs(list) + Below(Base(ls, images, id))
  {
    var all := list + ListForTag(id, Base(ls, images, id), DependencyIDs(list));
    AppendTag(ls, list, id, Base(ls, images, id));
    TagNamesParents(ls, images, list, id);
    CoversOneMore(ls, images, ids, list, all, id);
  }

  lemma UploadsForOne(ls: LayerStore, images: map<ImageID, Option<ChainID>>, id: ImageID)
    requires Forest(ls) && Available(ls, images, id)
    ensures UploadsFor(ls, images, {id}, ListForTag(id, Base(ls, images, id), {}))
  {
    var none: seq<V1Image> := [];
    assert DependencyIDs(none) == {} && TopIDs(none) == {};
    UploadsForOneMore(ls, images, {}, none, id);
    assert none + ListForTag(id, Base(ls, images, id), {}) == ListForTag(id, Base(ls, images, id), {});
    assert {} + {id} == {id};
  }

  /** Every tagged image is reported with all its tags. */
  ghost predicate TagsAgree(assocs: seq<Association>, tags: map<ImageID, seq<Tag>>)
  {
    && tags.Keys == TaggedIDs(assocs)
    && forall id :: TagsOf(assocs, id) == if id in tags then tags[id] else []
  }

  function AddTag(tags: map<ImageID, seq<Tag>>, id: ImageID, tag: Tag): map<ImageID, seq<Tag>>
  {
    tags[id := (if id in tags then tags[id] else []) + [tag]]
  }

  lemma TagsStep(assocs: seq<Association>, i: nat, tags: map<ImageID, seq<Tag>>)
    requires i < |assocs| && TagsAgree(assocs[..i], tags)
    ensures TagsAgree(assocs[..i + 1],
              if assocs[i].tag.Some? then AddTag(tags, assocs[i].imageID, assocs[i].tag.value) else tags)
  {
    TaggedIDsTake(assocs, i);
    assert assocs[..i + 1][..i] == assocs[..i];
  }

  /** The list and the tags after the first i associations. */
  ghost predicate Listed(ls: LayerStore, images: map<ImageID, Option<ChainID>>, assocs: seq<Association>, i: nat,
                         list: seq<V1Image>, tags: map<ImageID, seq<Tag>>)
    requires i <= |assocs|
  {
    UploadsFor(ls, images, TaggedIDs(assocs[..i]), list) && TagsAgree(assocs[..i], tags)
  }

  lemma SkipDigest(ls: LayerStore, images: map<ImageID, Option<ChainID>>, assocs: seq<Association>, i: nat,
                   list: seq<V1Image>, tags: map<ImageID, seq<Tag>>)
    requires i < |assocs| && Listed(ls, images, assocs, i, list, tags) && assocs[i].tag.None?
    ensures Listed(ls, images, assocs, i + 1, list, tags)
  {
    TagsStep(assocs, i, tags);
    TaggedIDsTake(assocs, i);
    assert TaggedIDs(assocs[..i + 1]) == TaggedIDs(assocs[..i]);
  }

  lemma ListAgain(ls: LayerStore, images: map<ImageID, Option<ChainID>>, assocs: seq<Association>, i: nat,
                  list: seq<V1Image>, tags: map<ImageID, seq<Tag>>)
    requires i < |assocs| && Listed(ls, images, assocs, i, list, tags)
    requires assocs[i].tag.Some? && assocs[i].imageID in tags
    ensures Listed(ls, images, assocs, i + 1, list, AddTag(tags, assocs[i].imageID, assocs[i].tag.value))
  {
    TagsStep(assocs, i, tags);
    TaggedIDsTake(assocs, i);
    assert TaggedIDs(assocs[..i + 1]) == TaggedIDs(assocs[..i]);
  }

  lemma ListMore(ls: LayerStore, images: map<ImageID, Option<ChainID>>, assocs: seq<Association>, i: nat,
                 list: seq<V1Image>, tags: map<ImageID, seq<Tag>>)
    requires Forest(ls) && i < |assocs| && Listed(ls, images, assocs, i, list, tags)
    requires assocs[i].tag.Some? && assocs[i].imageID !in tags && Available(ls, images, assocs[i].imageID)
    ensures var id := assocs[i].imageID;
            var all := list + ListForTag(id, Base(ls, images, id), DependencyIDs(list));
            && Listed(ls, images, assocs, i + 1, all, AddTag(tags, id, assocs[i].tag.value))
            && DependencyIDs(all) == DependencyIDs(list) + Below(Base(ls, images, id))
  {
    TagsStep(assocs, i, tags);
    TaggedIDsTake(assocs, i);
    UploadsForOneMore(ls, images, TaggedIDs(assocs[..i]), list, assocs[i].imageID);
  }

  lemma ListedAll(ls: LayerStore, images: map<ImageID, Option<ChainID>>, assocs: seq<Association>,
                  list: seq<V1Image>, tags: map<ImageID, seq<Tag>>)
    requires Listed(ls, images, assocs, |assocs|, list, tags)
    ensures UploadsFor(ls, images, TaggedIDs(assocs), list) && TagsAgree(assocs, tags)
    ensures list == [] <==> TaggedIDs(assocs) == {}
    ensures forall id :: id in TaggedIDs(assocs) ==> Available(ls, images, id)
  {
    assert assocs[..|assocs|] == assocs;
    if list != [] {
      assert list[0].TopImage? ==> list[0].imageID in TopIDs(list);
      assert list[0].Dependency? ==> list[0].v1ID in DependencyIDs(list);
    }
  }

  class V1Pusher {
    const layers: LayerStore
    const images: map<ImageID, Option<ChainID>>  // the top layer of each image, if any
    var seen: map<ChainID, V1Image>

    constructor (layers: LayerStore, images: map<ImageID, Option<ChainID>>)
      ensures this.layers == layers && this.images == images && seen == map[]
    {
      this.layers := layers;
      this.images := images;
      seen := map[];
    }

    /** The memo holds, for some layers, exactly their dependency images. */
    ghost predicate Memo()
      reads this
    {
      forall c :: c in seen ==> c in layers && layers[c].Layer? && seen[c] == DependencyOf(layers[c])
    }

    /**
     The dependency images of a layer that are still missing, base first, and
     the dependency image of the layer itself.
     */
    method GenerateDependencyImages(l: Layer, memoise: bool) returns (list: seq<V1Image>, top: Option<V1Image>)
      requires Forest(layers) && Known(layers, l) && Memo()
      modifies this
      ensures list == Missing(l, if memoise then old(seen).Keys else {})
      ensures top == if l.Layer? then Some(DependencyOf(l)) else None
      ensures Memo() && seen.Keys == old(seen).Keys + if memoise then Below(l) else {}
      decreases l
    {
      if l.NoLayer? {
        return [], None;
      }
      var parent;
      list, parent := GenerateDependencyImages(l.parent, memoise);
      NotBelowItself(layers, l);
      if memoise && l.chainID in seen {
        return list, Some(seen[l.chainID]);
      }
      var dependency := Dependency(l.chainID, if parent.Some? then Some(parent.value.v1ID) else None);
      list := list + [dependency];
      if memoise {
        seen := seen[l.chainID := dependency];
      }
      top := Some(dependency);
    }

    method ImageListForTag(id: ImageID, memoise: bool) returns (r: Result<seq<V1Image>, Error>)
      requires Forest(layers) && Memo()
      modifies this
      ensures r.Ok? <==> Available(layers, images, id)
      ensures r.Ok? ==> r.value == ListForTag(id, Base(layers, images, id), if memoise then old(seen).Keys else {})
      ensures r.Ok? ==> seen.Keys == old(seen).Keys + if memoise then Below(Base(layers, images, id)) else {}
      ensures Memo()
    {
      if id !in images {
        return Err(NoSuchImage);
      }
      var base := NoLayer;
      if images[id].Some? {
        if images[id].value !in layers {
          return Err(NoSuchLayer);
        }
        base := layers[images[id].value].parent;
      }
      var list, parent := GenerateDependencyImages(base, memoise);
      var top := TopImage(id, if parent.Some? then Some(parent.value.v1ID) else None);
      r := Ok(list + [top]);
    }

    /** Pushing one tag uploads that image and everything below it, in order. */
    method ListForOneTag(id: ImageID) returns (r: Result<seq<V1Image>, Error>)
      requires Forest(layers) && seen == map[]
      modifies this
      ensures r.Ok? <==> Available(layers, images, id)
      ensures r.Ok? ==> UploadsFor(layers, images, {id}, r.value)
    {
      r := ImageListForTag(id, false);
      if r.Ok? {
        UploadsForOne(layers, images, id);
      }
    }

    /**
     Pushing all tags of a repository.  Unless an image or its layer is missing,
     or nothing is tagged, the list is in upload order and covers exactly the
     tagged images; each image is reported with all its tags.
     */
    method GetImageList(assocs: seq<Association>)
      returns (r: Result<seq<V1Image>, Error>, tagsByImage: map<ImageID, seq<Tag>>)
      requires Forest(layers) && seen == map[]
      modifies this
      ensures r.Ok? <==> TaggedIDs(assocs) != {} && forall id :: id in TaggedIDs(assocs) ==> Available(layers, images, id)
      ensures r.Ok? ==> UploadsFor(layers, images, TaggedIDs(assocs), r.value) && TagsAgree(assocs, tagsByImage)
      ensures r.Ok? ==> seen.Keys == DependencyIDs(r.value) && ParentClosed(layers, seen.Keys)
    {
      var list: seq<V1Image> := [];
      tagsByImage := map[];
      for i := 0 to |assocs|
        invariant Memo() && seen.Keys == DependencyIDs(list)
        invariant Listed(layers, images, assocs, i, list, tagsByImage)
      {
        if assocs[i].tag.None? {
          SkipDigest(layers, images, assocs, i, list, tagsByImage);
          continue;
        }
        var id := assocs[i].imageID;
        var present := id in tagsByImage;
        if present {
          ListAgain(layers, images, assocs, i, list, tagsByImage);
          tagsByImage := AddTag(tagsByImage, id, assocs[i].tag.value);
          continue;
        }
        var one := ImageListForTag(id, true);
        if one.Err? {
          StillTagged(assocs, i);
          return Err(one.error), map[];
        }
        ListMore(layers, images, assocs, i, list, tagsByImage);
        tagsByImage := AddTag(tagsByImage, id, assocs[i].tag.value);
        list := list + one.value;
      }
      ListedAll(layers, images, assocs, list, tagsByImage);
      if list == [] {
        return Err(NothingToPush), map[];
      }
      r := Ok(list);
    }
  }

  lemma StillTagged(assocs: seq<Association>, i: nat)
    requires i < |assocs| && assocs[i].tag.Some?
    ensures assocs[i].imageID in TaggedIDs(assocs)
  {
  }
}
