/**
 Cleaning up a schema 1 manifest (Docker Image Manifest Version 2, Schema 1):
 repeated layers are removed from the two parallel lists in place and the
 parent chain is checked.
 */
module SchemaOneManifest {
  import opened Common

  type BlobSum = string

  datatype V1Image = V1Image(id: string, parent: string)

  /** A history entry: its raw text and what it decodes to, if anything. */
  datatype History = History(v1Compatibility: string, decoded: Option<V1Image>)

  /** 64 lower-case hexadecimal digits. */
  predicate ValidID(id: string)
  {
    |id| == 64 && forall i :: 0 <= i < |id| ==> '0' <= id[i] <= '9' || 'a' <= id[i] <= 'f'
  }

  lemma ValidIDExactly(id: string)
    ensures ValidID(id) <==> |id| == 64 && forall i :: 0 <= i < |id| ==> id[i] in "0123456789abcdef"
  {
    forall c: char ensures c in "0123456789abcdef" <==> '0' <= c <= '9' || 'a' <= c <= 'f' {
      IsHexDigit(c);
    }
  }

  lemma IsHexDigit(c: char)
    ensures c in "0123456789abcdef" <==> '0' <= c <= '9' || 'a' <= c <= 'f'
  {
    var digits := "0123456789abcdef";
    if '0' <= c <= '9' {
      assert digits[c as int - '0' as int] == c;
    } else if 'a' <= c <= 'f' {
      assert digits[10 + c as int - 'a' as int] == c;
    }
  }

  // ---- what a clean-up should give ----

  /** The last entry of each run of equal IDs, in order. */
  function LastOfRuns<T>(xs: seq<T>, ids: seq<string>): (r: seq<T>)
    requires |xs| == |ids|
    ensures |r| <= |xs| && (xs != [] ==> r != [])
  {
    if |xs| <= 1 then xs
    else if ids[0] == ids[1] then LastOfRuns(xs[1..], ids[1..])
    else [xs[0]] + LastOfRuns(xs[1..], ids[1..])
  }

  predicate RunEnd(ids: seq<string>, i: nat)
  {
    i < |ids| && (i == |ids| - 1 || ids[i] != ids[i + 1])
  }

  function Ids(imgs: seq<V1Image>): (r: seq<string>)
    ensures |r| == |imgs| && forall i :: 0 <= i < |imgs| ==> r[i] == imgs[i].id
  {
    seq(|imgs|, i requires 0 <= i < |imgs| => imgs[i].id)
  }

  /** Equal IDs only occur next to each other. */
  ghost predicate Contiguous(ids: seq<string>)
  {
    forall i, j, k :: 0 <= i <= k <= j < |ids| && ids[i] == ids[j] ==> ids[k] == ids[i]
  }

  ghost predicate Distinct(ids: seq<string>)
  {
    forall i, j :: 0 <= i < j < |ids| ==> ids[i] != ids[j]
  }

  /** Each image with a different successor names it as its parent. */
  ghost predicate ParentsMatch(imgs: seq<V1Image>)
  {
    forall i :: 0 <= i < |imgs| - 1 && imgs[i].id != imgs[i + 1].id ==> imgs[i].parent == imgs[i + 1].id
  }

  /** Each image's parent is the next image and the base has none. */
  ghost predicate Chain(imgs: seq<V1Image>)
  {
    && (forall i :: 0 <= i < |imgs| - 1 ==> imgs[i].parent == imgs[i + 1].id)
    && (imgs != [] ==> imgs[|imgs| - 1].parent == "")
  }

  ghost predicate Acceptable(imgs: seq<V1Image>)
    requires imgs != []
  {
    Chainable(imgs) && ParentsMatch(imgs)
  }

  /** The base has no parent and equal IDs are together. */
  ghost predicate Chainable(imgs: seq<V1Image>)
    requires imgs != []
  {
    imgs[|imgs| - 1].parent == "" && Contiguous(Ids(imgs))
  }

  // ---- which entries stay ----

  /** The indices of the run ends, in order. */
  function RunEnds(ids: seq<string>, from: nat): seq<nat>
    requires from <= |ids|
    decreases |ids| - from
  {
    if from == |ids| then []
    else if RunEnd(ids, from) then [from] + RunEnds(ids, from + 1)
    else RunEnds(ids, from + 1)
  }

  /** The indices listed are exactly the run ends, in increasing order. */
  lemma {:induction false} RunEndsExact(ids: seq<string>, from: nat)
    requires from <= |ids|
    ensures forall i :: i in RunEnds(ids, from) <==> from <= i && RunEnd(ids, i)
    ensures forall a, b :: 0 <= a < b < |RunEnds(ids, from)| ==> RunEnds(ids, from)[a] < RunEnds(ids, from)[b]
    decreases |ids| - from
  {
    if from < |ids| {
      RunEndsExact(ids, from + 1);
      var rest := RunEnds(ids, from + 1);
      assert forall a :: 0 <= a < |rest| ==> rest[a] in rest;
    }
  }

  /** What stays is what stands at the run ends. */
  lemma {:induction false} LastOfRunsSelects<T>(xs: seq<T>, ids: seq<string>, from: nat)
    requires |xs| == |ids| && from <= |ids|
    ensures var ends := RunEnds(ids, from);
            var kept := LastOfRuns(xs[from..], ids[from..]);
            |kept| == |ends| && forall k :: 0 <= k < |ends| ==> ends[k] < |xs| && kept[k] == xs[ends[k]]
    decreases |ids| - from
  {
    if from < |ids| {
      LastOfRunsSelects(xs, ids, from + 1);
      assert xs[from..][1..] == xs[from + 1..] && ids[from..][1..] == ids[from + 1..];
      if from == |ids| - 1 {
        assert xs[from + 1..] == [];
      }
    }
  }

  /** Cleaning the two lists separately keeps them aligned. */
  lemma {:induction false} LastOfRunsAligned<S, T>(xs: seq<S>, ys: seq<T>, ids: seq<string>, k: nat)
    requires |xs| == |ys| == |ids| && k < |RunEnds(ids, 0)|
    ensures |LastOfRuns(xs, ids)| == |LastOfRuns(ys, ids)| == |RunEnds(ids, 0)|
    ensures var i := RunEnds(ids, 0)[k];
            i < |ids| && LastOfRuns(xs, ids)[k] == xs[i] && LastOfRuns(ys, ids)[k] == ys[i]
  {
    assert xs[0..] == xs && ys[0..] == ys && ids[0..] == ids;
    LastOfRunsSelects(xs, ids, 0);
    LastOfRunsSelects(ys, ids, 0);
  }

  // ---- what the result satisfies ----

  lemma {:induction false} LastOfRunsIds(imgs: seq<V1Image>)
    ensures Ids(LastOfRuns(imgs, Ids(imgs))) == LastOfRuns(Ids(imgs), Ids(imgs))
    ensures imgs != [] ==> LastOfRuns(imgs, Ids(imgs))[0].id == imgs[0].id
    ensures forall x :: x in LastOfRuns(Ids(imgs), Ids(imgs)) ==> x in Ids(imgs)
  {
    if |imgs| > 1 {
      assert Ids(imgs)[1..] == Ids(imgs[1..]);
      LastOfRunsIds(imgs[1..]);
    }
  }

  lemma ContiguousTail(ids: seq<string>)
    requires Contiguous(ids) && |ids| > 1
    ensures ids[0] == ids[1] || ids[0] !in ids[1..]
  {
  }

  lemma DistinctCons(id: string, ids: seq<string>)
    requires Distinct(ids) && id !in ids
    ensures Distinct([id] + ids)
  {
  }

  lemma ChainCons(img: V1Image, rest: seq<V1Image>)
    requires rest != [] && Chain(rest) && img.parent == rest[0].id
    ensures Chain([img] + rest)
  {
  }

  lemma AcceptableRest(imgs: seq<V1Image>)
    requires |imgs| > 1 && Acceptable(imgs)
    ensures Acceptable(imgs[1..]) && Ids(imgs)[1..] == Ids(imgs[1..])
  {
  }

  /**
   A cleaned acceptable manifest: its IDs are pairwise distinct, each entry's
   parent is the next entry and the base has none.
   */
  lemma {:induction false} CleanedIsChain(imgs: seq<V1Image>)
    requires imgs != [] && Acceptable(imgs)
    ensures var kept := LastOfRuns(imgs, Ids(imgs)); Distinct(Ids(kept)) && Chain(kept)
  {
    if |imgs| > 1 {
      var rest := imgs[1..];
      AcceptableRest(imgs);
      CleanedIsChain(rest);
      if imgs[0].id != imgs[1].id {
        var tail := LastOfRuns(rest, Ids(rest));
        LastOfRunsIds(rest);
        ContiguousTail(Ids(imgs));
        DistinctCons(imgs[0].id, Ids(tail));
        ChainCons(imgs[0], tail);
        assert Ids([imgs[0]] + tail) == [imgs[0].id] + Ids(tail);
      }
    }
  }

  /** Cleaning twice is cleaning once. */
  lemma {:induction false} DistinctUnchanged<T>(xs: seq<T>, ids: seq<string>)
    requires |xs| == |ids| && Distinct(ids)
    ensures LastOfRuns(xs, ids) == xs
  {
    if |xs| > 1 {
      DistinctUnchanged(xs[1..], ids[1..]);
      assert [xs[0]] + xs[1..] == xs;
    }
  }

  lemma DistinctContiguous(ids: seq<string>)
    requires Distinct(ids)
    ensures Contiguous(ids)
  {
  }

  /** A cleaned manifest is accepted again and a second clean-up changes nothing. */
  lemma CleanupIdempotent(imgs: seq<V1Image>)
    requires imgs != [] && Acceptable(imgs)
    ensures var kept := LastOfRuns(imgs, Ids(imgs));
            kept != [] && Acceptable(kept) && LastOfRuns(kept, Ids(kept)) == kept
  {
    var kept := LastOfRuns(imgs, Ids(imgs));
    CleanedIsChain(imgs);
    DistinctUnchanged(kept, Ids(kept));
    DistinctContiguous(Ids(kept));
  }

  // ---- the clean-up ----

  datatype Error =
    | DigestMismatch | BadVersion | LengthMismatch | NoLayers
    | Undecodable | InvalidID | BaseHasParent | RepeatedID | WrongParent

  /** Every entry decodes to an image with a valid ID. */
  ghost predicate Decodable(history: seq<History>)
  {
    forall i :: 0 <= i < |history| ==> history[i].decoded.Some? && ValidID(history[i].decoded.value.id)
  }

  ghost function Images(history: seq<History>): (imgs: seq<V1Image>)
    requires Decodable(history)
    ensures |imgs| == |history|
  {
    seq(|history|, i requires 0 <= i < |history| => history[i].decoded.value)
  }

  lemma {:induction false} ImagesOfCleaned(history: seq<History>, ids: seq<string>)
    requires |history| == |ids| && Decodable(history)
    ensures Decodable(LastOfRuns(history, ids))
    ensures Images(LastOfRuns(history, ids)) == LastOfRuns(Images(history), ids)
  {
    if |history| > 1 {
      ImagesOfCleaned(history[1..], ids[1..]);
      assert Images(history)[1..] == Images(history[1..]);
      var tail := LastOfRuns(history[1..], ids[1..]);
      if ids[0] != ids[1] {
        assert Images([history[0]] + tail) == [history[0].decoded.value] + Images(tail);
      }
    }
  }

  /** Running the clean-up on its own result succeeds and changes neither list. */
  lemma SecondRunUnchanged(layers: seq<BlobSum>, history: seq<History>)
    requires |layers| == |history| && history != [] && Decodable(history) && Acceptable(Images(history))
    ensures var ids := Ids(Images(history));
            var layers', history' := LastOfRuns(layers, ids), LastOfRuns(history, ids);
            && |layers'| == |history'| && Decodable(history') && Acceptable(Images(history'))
            && LastOfRuns(layers', Ids(Images(history'))) == layers'
            && LastOfRuns(history', Ids(Images(history'))) == history'
  {
    var imgs := Images(history);
    var ids := Ids(imgs);
    CleanupIdempotent(imgs);
    CleanedIsChain(imgs);
    ImagesOfCleaned(history, ids);
    assert layers[0..] == layers && history[0..] == history && ids[0..] == ids;
    LastOfRunsSelects(layers, ids, 0);
    LastOfRunsSelects(history, ids, 0);
    var kept := Ids(LastOfRuns(imgs, ids));
    DistinctUnchanged(LastOfRuns(layers, ids), kept);
    DistinctUnchanged(LastOfRuns(history, ids), kept);
  }

  /** xs cleaned up from index i on. */
  ghost function CleanedFrom<T>(xs: seq<T>, ids: seq<string>, i: nat): seq<T>
    requires |xs| == |ids| && i <= |xs|
  {
    xs[..i] + LastOfRuns(xs[i..], ids[i..])
  }

  function RemoveAt<T>(xs: seq<T>, i: nat): (r: seq<T>)
    requires i < |xs|
    ensures |r| == |xs| - 1
  {
    xs[..i] + xs[i + 1..]
  }

  lemma CleanedStep<T>(xs: seq<T>, ids: seq<string>, i: nat)
    requires |xs| == |ids| && i + 1 < |xs|
    ensures i < |CleanedFrom(xs, ids, i + 1)|
    ensures CleanedFrom(xs, ids, i) == if ids[i] == ids[i + 1]
              then RemoveAt(CleanedFrom(xs, ids, i + 1), i)
              else CleanedFrom(xs, ids, i + 1)
  {
  }

  lemma CleanedEnds<T>(xs: seq<T>, ids: seq<string>)
    requires |xs| == |ids| && xs != []
    ensures CleanedFrom(xs, ids, |xs| - 1) == xs
    ensures CleanedFrom(xs, ids, 0) == LastOfRuns(xs, ids)
  {
  }

  /** The image before index i has a different ID and names another parent. */
  predicate WrongParentAt(imgs: seq<V1Image>, i: nat)
  {
    0 < i < |imgs| && imgs[i - 1].id != imgs[i].id && imgs[i - 1].parent != imgs[i].id
  }

  /** The last such index below n, or 0. */
  function LastWrongParent(imgs: seq<V1Image>, n: nat): (i: nat)
    ensures i == 0 || (i < n && WrongParentAt(imgs, i))
    ensures forall k :: i < k < n ==> !WrongParentAt(imgs, k)
  {
    if n == 0 then 0 else if WrongParentAt(imgs, n - 1) then n - 1 else LastWrongParent(imgs, n - 1)
  }

  /** Some ID from index i on is followed by itself. */
  ghost predicate RepeatsFrom(ids: seq<string>, i: nat)
  {
    exists k :: i <= k < |ids| - 1 && ids[k] == ids[k + 1]
  }

  lemma {:induction false} LastOfRunsUnchanged<T>(xs: seq<T>, ids: seq<string>)
    requires |xs| == |ids|
    ensures LastOfRuns(xs, ids) == xs <==> !RepeatsFrom(ids, 0)
    ensures RepeatsFrom(ids, 0) ==> |LastOfRuns(xs, ids)| < |xs|
  {
    if |xs| > 1 {
      LastOfRunsUnchanged(xs[1..], ids[1..]);
      if RepeatsFrom(ids[1..], 0) {
        var k :| 0 <= k < |ids[1..]| - 1 && ids[1..][k] == ids[1..][k + 1];
        assert ids[k + 1] == ids[k + 1 + 1];
      } else if RepeatsFrom(ids, 0) {
        var k :| 0 <= k < |ids| - 1 && ids[k] == ids[k + 1];
        assert k > 0 ==> ids[1..][k - 1] == ids[1..][k - 1 + 1];
      } else {
        assert ids[0] != ids[0 + 1];
      }
    }
  }

  /** Cleaning from index i on changes a list exactly when an ID repeats from there on. */
  lemma LeftAloneExactly<T>(xs: seq<T>, ids: seq<string>, i: nat)
    requires |xs| == |ids| && i <= |xs|
    ensures CleanedFrom(xs, ids, i) == xs <==> !RepeatsFrom(ids, i)
  {
    LastOfRunsUnchanged(xs[i..], ids[i..]);
    assert xs[..i] + xs[i..] == xs;
    if RepeatsFrom(ids, i) {
      var k :| i <= k < |ids| - 1 && ids[k] == ids[k + 1];
      assert ids[i..][k - i] == ids[i..][k - i + 1];
    }
    if RepeatsFrom(ids[i..], 0) {
      var k :| 0 <= k < |ids[i..]| - 1 && ids[i..][k] == ids[i..][k + 1];
      assert ids[i + k] == ids[i + k + 1];
    }
  }

  /** A manifest rejected for the parent of its first image, after its repeated base was removed. */
  lemma RejectedPartlyCleaned()
    ensures var a, b := seq(64, _ => 'a'), seq(64, _ => 'b');
            var imgs := [V1Image(a, ""), V1Image(b, ""), V1Image(b, "")];
            && ValidID(a) && ValidID(b) && Contiguous(Ids(imgs)) && !ParentsMatch(imgs)
            && CleanedFrom(["x", "y", "z"], Ids(imgs), LastWrongParent(imgs, 3)) == ["x", "z"]
  {
    var a, b := seq(64, _ => 'a'), seq(64, _ => 'b');
    var imgs := [V1Image(a, ""), V1Image(b, ""), V1Image(b, "")];
    assert a[0] != b[0];
    assert imgs[0].id != imgs[0 + 1].id && !WrongParentAt(imgs, 2) && WrongParentAt(imgs, 1);
    assert LastWrongParent(imgs, 3) == 1;
    assert Ids(imgs)[1..] == [b, b] && ["x", "y", "z"][1..] == ["y", "z"];
    assert LastOfRuns(["y", "z"], [b, b]) == ["z"];
  }

  lemma ContiguousSnoc(ids: seq<string>, i: nat)
    requires i < |ids|
    ensures Contiguous(ids[..i + 1]) <==>
            Contiguous(ids[..i]) && (i == 0 || ids[i] == ids[i - 1] || ids[i] !in ids[..i])
  {
  }

  /** Reports whether some ID occurs in two separate runs. */
  method HasSplitRuns(imgs: seq<V1Image>) returns (split: bool)
    requires forall i :: 0 <= i < |imgs| ==> ValidID(imgs[i].id)
    ensures split <==> !Contiguous(Ids(imgs))
  {
    ghost var ids := Ids(imgs);
    var seen: set<string> := {};
    var lastID := "";
    split := false;
    for i := 0 to |imgs|
      invariant seen == set x | x in ids[..i]
      invariant i > 0 ==> lastID == ids[i - 1]
      invariant Contiguous(ids[..i])
    {
      ContiguousSnoc(ids, i);
      if imgs[i].id != lastID && imgs[i].id in seen {
        SplitStays(ids, i + 1);
        return true;
      }
      lastID := imgs[i].id;
      assert ids[..i + 1] == ids[..i] + [lastID];
      seen := seen + {lastID};
    }
    assert ids[..|ids|] == ids;
  }

  lemma SplitStays(ids: seq<string>, n: nat)
    requires n <= |ids| && !Contiguous(ids[..n])
    ensures !Contiguous(ids)
  {
  }

  /**
   What a rejection for a wrong parent at index i leaves: both lists cleaned from
   there on, unchanged exactly when no ID repeats from there on.
   */
  ghost predicate RejectedAt(layers: seq<BlobSum>, history: seq<History>, imgs: seq<V1Image>, i: nat,
                             layers': seq<BlobSum>, history': seq<History>)
    requires |layers| == |history| == |imgs|
  {
    && WrongParentAt(imgs, i)
    && layers' == CleanedFrom(layers, Ids(imgs), i) && history' == CleanedFrom(history, Ids(imgs), i)
    && (layers' == layers <==> !RepeatsFrom(Ids(imgs), i))
    && (history' == history <==> !RepeatsFrom(Ids(imgs), i))
  }

  /** What the backward loop has done when it is about to look at the image before index i. */
  ghost predicate Cleaning(layers: seq<BlobSum>, history: seq<History>, imgs: seq<V1Image>, i: nat,
                           layers': seq<BlobSum>, history': seq<History>)
    requires |layers| == |history| == |imgs| && i <= |imgs|
  {
    && layers' == CleanedFrom(layers, Ids(imgs), i) && history' == CleanedFrom(history, Ids(imgs), i)
    && |layers'| == |history'|
    && forall k :: i < k < |imgs| ==> !WrongParentAt(imgs, k)
  }

  lemma CleaningStarts(layers: seq<BlobSum>, history: seq<History>, imgs: seq<V1Image>)
    requires |layers| == |history| == |imgs| && imgs != []
    ensures Cleaning(layers, history, imgs, |imgs| - 1, layers, history)
  {
    CleanedEnds(layers, Ids(imgs));
    CleanedEnds(history, Ids(imgs));
  }

  lemma CleaningStep(layers: seq<BlobSum>, history: seq<History>, imgs: seq<V1Image>, i: nat,
                     layers': seq<BlobSum>, history': seq<History>)
    requires |layers| == |history| == |imgs| && i + 1 < |imgs|
    requires Cleaning(layers, history, imgs, i + 1, layers', history')
    ensures i < |layers'| == |history'|
    ensures imgs[i].id == imgs[i + 1].id ==> Cleaning(layers, history, imgs, i, RemoveAt(layers', i), RemoveAt(history', i))
    ensures imgs[i].id != imgs[i + 1].id && imgs[i].parent == imgs[i + 1].id ==>
              Cleaning(layers, history, imgs, i, layers', history')
    ensures imgs[i].id != imgs[i + 1].id && imgs[i].parent != imgs[i + 1].id ==>
              !ParentsMatch(imgs)
              && RejectedAt(layers, history, imgs, LastWrongParent(imgs, |imgs|), layers', history')
  {
    var ids := Ids(imgs);
    CleanedStep(layers, ids, i);
    CleanedStep(history, ids, i);
    LeftAloneExactly(layers, ids, i + 1);
    LeftAloneExactly(history, ids, i + 1);
    if WrongParentAt(imgs, i + 1) {
      assert LastWrongParent(imgs, |imgs|) == i + 1;
    }
  }

  lemma CleaningEnds(layers: seq<BlobSum>, history: seq<History>, imgs: seq<V1Image>,
                     layers': seq<BlobSum>, history': seq<History>)
    requires |layers| == |history| == |imgs| && imgs != [] && Cleaning(layers, history, imgs, 0, layers', history')
    ensures ParentsMatch(imgs)
    ensures layers' == LastOfRuns(layers, Ids(imgs)) && history' == LastOfRuns(history, Ids(imgs))
  {
    CleanedEnds(layers, Ids(imgs));
    CleanedEnds(history, Ids(imgs));
    forall k | 0 <= k < |imgs| - 1 && imgs[k].id != imgs[k + 1].id ensures imgs[k].parent == imgs[k + 1].id {
      assert !WrongParentAt(imgs, k + 1);
    }
  }

  class Manifest {
    var canonicalDigest: string
    var schemaVersion: int
    var fsLayers: seq<BlobSum>
    var history: seq<History>

    /** Checked before anything else; `wanted` is the digest when pulling by digest. */
    method Verify(wanted: Option<string>) returns (r: Result<(), Error>)
      ensures r.Ok? <==> (wanted.Some? ==> canonicalDigest == wanted.value) && schemaVersion == 1
                         && |fsLayers| == |history| && fsLayers != []
    {
      if wanted.Some? && canonicalDigest != wanted.value { return Err(DigestMismatch); }
      if schemaVersion != 1 { return Err(BadVersion); }
      if |fsLayers| != |history| { return Err(LengthMismatch); }
      if |fsLayers| == 0 { return Err(NoLayers); }
      r := Ok(());
    }

    method DecodeImages() returns (r: Result<seq<V1Image>, Error>)
      ensures r.Ok? <==> Decodable(history)
      ensures r.Ok? ==> r.value == Images(history)
      ensures r.Err? ==> r.error == Undecodable || r.error == InvalidID
    {
      var imgs: seq<V1Image> := [];
      for i := 0 to |history|
        invariant |imgs| == i && Decodable(history[..i])
        invariant forall k :: 0 <= k < i ==> imgs[k] == history[k].decoded.value
      {
        if history[i].decoded.None? {
          return Err(Undecodable);
        }
        if !ValidID(history[i].decoded.value.id) {
          return Err(InvalidID);
        }
        imgs := imgs + [history[i].decoded.value];
      }
      r := Ok(imgs);
    }

    /**
     Removes repeated layers and checks the parent chain.  It succeeds exactly
     on acceptable manifests and then leaves the last entry of each run in both
     lists.  A rejected manifest is left alone, except that after a wrong parent
     the lists are cleaned from the last one on; so both are unchanged exactly
     when no ID repeats from there on.
     */
    method FixLayers() returns (r: Result<(), Error>)
      requires |fsLayers| == |history| && fsLayers != []
      modifies this`fsLayers, this`history
      ensures r.Ok? <==> Decodable(old(history)) && Acceptable(Images(old(history)))
      ensures r.Ok? ==> var ids := Ids(Images(old(history)));
                        fsLayers == LastOfRuns(old(fsLayers), ids) && history == LastOfRuns(old(history), ids)
      ensures r.Err? && r.error != WrongParent ==> fsLayers == old(fsLayers) && history == old(history)
      ensures r == Err(WrongParent) <==>
              Decodable(old(history)) && Chainable(Images(old(history))) && !ParentsMatch(Images(old(history)))
      ensures r == Err(WrongParent) ==> var imgs := Images(old(history)); RejectedAt(
                old(fsLayers), old(history), imgs, LastWrongParent(imgs, |imgs|), fsLayers, history)
      ensures |fsLayers| == |history|
    {
      var decoded := DecodeImages();
      if decoded.Err? {
        return Err(decoded.error);
      }
      var imgs := decoded.value;
      if imgs[|imgs| - 1].parent != "" {
        return Err(BaseHasParent);
      }
      var split := HasSplitRuns(imgs);
      if split {
        return Err(RepeatedID);
      }
      r := DropRepeats(imgs);
    }

    /** The backward loop: drops an entry when its successor repeats the ID. */
    method DropRepeats(imgs: seq<V1Image>) returns (r: Result<(), Error>)
      requires |fsLayers| == |history| == |imgs| && imgs != []
      modifies this`fsLayers, this`history
      ensures r.Ok? <==> ParentsMatch(imgs)
      ensures r.Ok? ==> fsLayers == LastOfRuns(old(fsLayers), Ids(imgs)) && history == LastOfRuns(old(history), Ids(imgs))
      ensures r.Err? ==> r.error == WrongParent && RejectedAt(
                old(fsLayers), old(history), imgs, LastWrongParent(imgs, |imgs|), fsLayers, history)
      ensures |fsLayers| == |history|
    {
      var i := |imgs| - 1;
      CleaningStarts(fsLayers, history, imgs);
      while i > 0
        invariant 0 <= i < |imgs|
        invariant Cleaning(old(fsLayers), old(history), imgs, i, fsLayers, history)
      {
        i := i - 1;
        CleaningStep(old(fsLayers), old(history), imgs, i, fsLayers, history);
        if imgs[i].id == imgs[i + 1].id {
          fsLayers := RemoveAt(fsLayers, i);
          history := RemoveAt(history, i);
        } else if imgs[i].parent != imgs[i + 1].id {
          return Err(WrongParent);
        }
      }
      CleaningEnds(old(fsLayers), old(history), imgs, fsLayers, history);
      r := Ok(());
    }
  }
}
