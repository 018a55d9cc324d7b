/**
 Downloading a layer with resumption.  Between attempts a temporary file keeps
 the bytes received so far and a verifier keeps the digest computed over them.
 */
module LayerDownload {
  import opened Common

  type Byte = bv8
  type Bytes = seq<Byte>

  /** A temporary file and its offset, which never lies past the end. */
  datatype File = File(data: Bytes, pos: nat)
  {
    predicate Valid() { pos <= |data| }
  }

  /** Writes at the offset, over what is there. */
  function Write(f: File, bytes: Bytes): File
    requires f.Valid()
  {
    var end := f.pos + |bytes|;
    File(f.data[..f.pos] + bytes + if end < |f.data| then f.data[end..] else [], end)
  }

  /** What is kept between attempts; the verifier is the bytes fed to it. */
  datatype State = State(file: Option<File>, verifier: Option<Bytes>)

  predicate Positioned(s: State)
  {
    s.file.Some? ==> s.file.value.Valid()
  }

  datatype Outcome = Handed(bytes: Bytes) | Retry | DoNotRetry

  // ---- what can happen during an attempt ----

  /** A write of chunk number `at` that stores only `keep` of its bytes. */
  datatype WriteFault = NoFault | Short(at: nat, keep: nat, noSpace: bool)

  /** The outcomes of local operations. */
  datatype Local = Local(createOK: bool, seekEndOK: bool, truncateSeekOK: bool, truncateOK: bool,
                         verifierOK: bool, rewindOK: bool, write: WriteFault)

  datatype Opened = BlobOpen | BlobUnknown | OpenFails(retryable: bool)

  datatype ReadEnd = EndOfBlob | WrongByteRange | ReadFails(retryable: bool)

  /** What the registry does: arbitrary bytes in arbitrary chunks, failing anywhere. */
  datatype Remote = Remote(open: Opened, seekOffsetOK: bool, size: Option<nat>, seekBackOK: bool,
                           chunks: seq<Bytes>, end: ReadEnd)

  // ---- one attempt ----

  datatype Prepared = Ready(state: State, offset: nat) | Failed(state: State)

  /** Makes sure there is a temporary file, positioned at its end. */
  function Prepare(s: State, l: Local): Prepared
  {
    if s.file.Some? && l.seekEndOK then
      var n := |s.file.value.data|;
      Ready(s.(file := Some(s.file.value.(pos := n))), n)
    else if l.createOK then Ready(s.(file := Some(File([], 0))), 0)
    else Failed(s.(file := None))
  }

  /** Forgets the verifier and empties the file; says whether that worked. */
  function Truncate(s: State, l: Local): (State, bool)
    requires s.file.Some?
  {
    var f := s.file.value;
    if !l.truncateSeekOK then (State(Some(f), None), false)
    else if !l.truncateOK then (State(Some(f.(pos := 0)), None), false)
    else (State(Some(File([], 0)), None), true)
  }

  function TruncateThenRetry(s: State, l: Local): (State, Outcome)
    requires s.file.Some?
  {
    var (t, ok) := Truncate(s, l);
    (t, if ok then Retry else DoNotRetry)
  }

  function Retried(retryable: bool): Outcome
  {
    if retryable then Retry else DoNotRetry
  }

  /** Copies chunk number i and what follows to the verifier and the file; stops at a failed write. */
  function Copy(f: File, fed: Bytes, chunks: seq<Bytes>, i: nat, fault: WriteFault): (r: (File, Bytes, bool))
    requires f.Valid() && i <= |chunks|
    ensures r.0.Valid() && (!r.2 ==> fault.Short?)
    decreases |chunks| - i
  {
    if i == |chunks| then (f, fed, true)
    else if fault.Short? && fault.at == i && fault.keep < |chunks[i]| then
      (Write(f, chunks[i][..fault.keep]), fed + chunks[i], false)
    else Copy(Write(f, chunks[i]), fed + chunks[i], chunks, i + 1, fault)
  }

  /** The part of an attempt after the remote seeks: transfer and verification. */
  function Transfer<D(==)>(hash: Bytes -> D, digest: D, s: State, offset: nat, l: Local, r: Remote): (res: (State, Outcome))
    requires s.file.Some? && s.file.value.Valid()
    ensures Positioned(res.0)
  {
    if s.verifier.None? && !l.verifierOK then (s, DoNotRetry)
    else
      var (f, fed, wrote) := Copy(s.file.value, if s.verifier.Some? then s.verifier.value else [], r.chunks, 0, l.write);
      var t := State(Some(f), Some(fed));
      if !wrote then (t, Retried(!l.write.noSpace))
      else if r.end.WrongByteRange? then TruncateThenRetry(t, l)
      else if r.end.ReadFails? then (t, Retried(r.end.retryable))
      else if hash(fed) != digest then
        if offset != 0 then TruncateThenRetry(t, l) else (t, DoNotRetry)
      else if !l.rewindOK then (State(None, None), DoNotRetry)
      else (State(None, Some(fed)), Handed(f.data))
  }

  function Attempt<D(==)>(hash: Bytes -> D, digest: D, s: State, l: Local, r: Remote): (res: (State, Outcome))
    requires Positioned(s)
    ensures Positioned(res.0)
  {
    match Prepare(s, l)
    case Failed(t) => (t, DoNotRetry)
    case Ready(t, offset) =>
      if r.open.BlobUnknown? then (t, DoNotRetry)
      else if r.open.OpenFails? then (t, Retried(r.open.retryable))
      else if offset != 0 && !r.seekOffsetOK then TruncateThenRetry(t, l)
      else
        var tooLong := r.size.Some? && r.size.value != 0 && offset > r.size.value;
        var (u, ok) := if tooLong then Truncate(t, l) else (t, true);
        if !ok then (u, DoNotRetry)
        else if r.size.Some? && !r.seekBackOK then (u, Retry)
        else Transfer(hash, digest, u, if tooLong then 0 else offset, l, r)
  }

  // ---- the file and the verifier stay in step ----

  /** The verifier has seen exactly the file; without one the file is empty or absent. */
  ghost predicate InStep(s: State)
  {
    match s.verifier
    case None => s.file.Some? ==> s.file.value.data == []
    case Some(fed) => s.file.Some? && s.file.value.data == fed
  }

  lemma {:induction false} CopyInStep(f: File, fed: Bytes, chunks: seq<Bytes>, i: nat, fault: WriteFault)
    requires f.pos == |f.data| && f.data == fed && i <= |chunks|
    requires Copy(f, fed, chunks, i, fault).2
    ensures var r := Copy(f, fed, chunks, i, fault); r.0.data == r.1 && r.0.pos == |r.0.data|
    decreases |chunks| - i
  {
    if i < |chunks| {
      var g := Write(f, chunks[i]);
      assert g.data == f.data + chunks[i];
      CopyInStep(g, fed + chunks[i], chunks, i + 1, fault);
    }
  }

  lemma {:induction false} CopyWithoutFault(f: File, fed: Bytes, chunks: seq<Bytes>, i: nat, fault: WriteFault)
    requires f.Valid() && i <= |chunks|
    requires fault.Short? ==> fault.at >= |chunks| || (fault.at >= i ==> fault.keep >= |chunks[fault.at]|)
    ensures Copy(f, fed, chunks, i, fault).2
    decreases |chunks| - i
  {
    if i < |chunks| {
      CopyWithoutFault(Write(f, chunks[i]), fed + chunks[i], chunks, i + 1, fault);
    }
  }

  /** The next attempt may rely on the state, or there is none, or the bytes are right. */
  ghost predicate Safe<D>(hash: Bytes -> D, digest: D, r: (State, Outcome))
  {
    match r.1
    case Retry => InStep(r.0)
    case DoNotRetry => true
    case Handed(bytes) => hash(bytes) == digest
  }

  /** Starting over on a new file while the verifier remembers the old one. */
  predicate LosesFile(s: State, l: Local)
  {
    s.file.Some? && !l.seekEndOK && l.createOK && s.verifier.Some? && s.verifier.value != []
  }

  /** A write can fail in a way that is retried. */
  predicate LosesWrite(s: State, l: Local)
  {
    && (l.createOK || (s.file.Some? && l.seekEndOK))
    && (l.verifierOK || s.verifier.Some?)
    && l.write.Short? && !l.write.noSpace
  }

  lemma TransferSafe<D>(hash: Bytes -> D, digest: D, s: State, offset: nat, l: Local, r: Remote)
    requires s.file.Some? && s.file.value.pos == |s.file.value.data| && InStep(s)
    requires l.write.Short? ==> l.write.noSpace || (s.verifier.None? && !l.verifierOK)
    ensures Safe(hash, digest, Transfer(hash, digest, s, offset, l, r))
  {
    if s.verifier.Some? || l.verifierOK {
      var f, fed := s.file.value, if s.verifier.Some? then s.verifier.value else [];
      if Copy(f, fed, r.chunks, 0, l.write).2 {
        CopyInStep(f, fed, r.chunks, 0, l.write);
      }
      if l.write.NoFault? {
        CopyWithoutFault(f, fed, r.chunks, 0, l.write);
      }
    }
  }

  lemma AttemptSafe<D>(hash: Bytes -> D, digest: D, s: State, l: Local, r: Remote)
    requires InStep(s) && Positioned(s) && !LosesFile(s, l) && !LosesWrite(s, l)
    ensures Safe(hash, digest, Attempt(hash, digest, s, l, r))
  {
    var p := Prepare(s, l);
    if p.Ready? && r.open.BlobOpen? {
      var tooLong := r.size.Some? && r.size.value != 0 && p.offset > r.size.value;
      var (u, ok) := if tooLong then Truncate(p.state, l) else (p.state, true);
      if ok {
        TransferSafe(hash, digest, u, if tooLong then 0 else p.offset, l, r);
      }
    }
  }

  /**
   From a state in step, an attempt is safe against every registry exactly when
   it neither starts a new file under an old verifier nor has a write fail in a
   way that is retried.
   */
  lemma SafeExactly<D>(hash: Bytes -> D, digest: D, s: State, l: Local)
    requires InStep(s) && Positioned(s)
    ensures (forall r: Remote :: Safe(hash, digest, Attempt(hash, digest, s, l, r))) <==>
            !LosesFile(s, l) && !LosesWrite(s, l)
  {
    if LosesFile(s, l) {
      var r := Remote(OpenFails(true), true, None, true, [], EndOfBlob);
      assert !Safe(hash, digest, Attempt(hash, digest, s, l, r));
    } else if LosesWrite(s, l) {
      var r := LosingRemote(l);
      LostWriteUnsafe(hash, digest, s, l, r);
      assert !Safe(hash, digest, Attempt(hash, digest, s, l, r));
    } else {
      forall r: Remote ensures Safe(hash, digest, Attempt(hash, digest, s, l, r)) {
        AttemptSafe(hash, digest, s, l, r);
      }
    }
  }

  /** A registry that sends enough for the failing write to lose something. */
  function LosingRemote(l: Local): Remote
    requires l.write.Short?
  {
    Remote(BlobOpen, true, None, true, seq(l.write.at, i => []) + [seq(l.write.keep + 1, i => 0 as Byte)], EndOfBlob)
  }

  lemma {:induction false} CopyEmptyChunks(f: File, fed: Bytes, chunks: seq<Bytes>, i: nat, fault: WriteFault)
    requires f.pos == |f.data| && f.data == fed && fault.Short? && i <= fault.at == |chunks| - 1
    requires forall k :: i <= k < fault.at ==> chunks[k] == []
    requires |chunks[fault.at]| > fault.keep
    ensures var r := Copy(f, fed, chunks, i, fault); !r.2 && |r.0.data| < |r.1|
    decreases |chunks| - i
  {
    if i < fault.at {
      assert Write(f, chunks[i]).data == f.data;
      CopyEmptyChunks(Write(f, chunks[i]), fed + chunks[i], chunks, i + 1, fault);
    } else {
      assert Write(f, chunks[i][..fault.keep]).data == f.data + chunks[i][..fault.keep];
    }
  }

  lemma LostWriteUnsafe<D>(hash: Bytes -> D, digest: D, s: State, l: Local, r: Remote)
    requires InStep(s) && Positioned(s) && !LosesFile(s, l) && LosesWrite(s, l) && r == LosingRemote(l)
    ensures !Safe(hash, digest, Attempt(hash, digest, s, l, r))
  {
    var p := Prepare(s, l);
    var fed := if p.state.verifier.Some? then p.state.verifier.value else [];
    CopyEmptyChunks(p.state.file.value, fed, r.chunks, 0, l.write);
  }

  // ---- whole downloads ----

  /** The attempts made one after another until one is not retried. */
  function Downloads<D(==)>(hash: Bytes -> D, digest: D, s: State, tries: seq<(Local, Remote)>): (State, Outcome)
    requires Positioned(s)
    decreases tries
  {
    if tries == [] then (s, Retry)
    else
      var (t, o) := Attempt(hash, digest, s, tries[0].0, tries[0].1);
      if o.Retry? then Downloads(hash, digest, t, tries[1..]) else (t, o)
  }

  ghost predicate SoundTries<D>(hash: Bytes -> D, digest: D, s: State, tries: seq<(Local, Remote)>)
    requires Positioned(s)
    decreases tries
  {
    tries == [] ||
    (&& !LosesFile(s, tries[0].0) && !LosesWrite(s, tries[0].0)
     && var (t, o) := Attempt(hash, digest, s, tries[0].0, tries[0].1);
        o.Retry? ==> SoundTries(hash, digest, t, tries[1..]))
  }

  /**
   Over any sequence of attempts, whatever the registry sends and wherever it
   fails, the bytes finally handed on have the requested digest, and between
   attempts the verifier has seen exactly what is in the file.
   */
  lemma {:induction false} DownloadSafe<D>(hash: Bytes -> D, digest: D, s: State, tries: seq<(Local, Remote)>)
    requires InStep(s) && Positioned(s) && SoundTries(hash, digest, s, tries)
    ensures Safe(hash, digest, Downloads(hash, digest, s, tries))
    decreases tries
  {
    if tries != [] {
      AttemptSafe(hash, digest, s, tries[0].0, tries[0].1);
      var (t, o) := Attempt(hash, digest, s, tries[0].0, tries[0].1);
      if o.Retry? {
        DownloadSafe(hash, digest, t, tries[1..]);
      }
    }
  }

  /**
   Why the file must not be replaced under the verifier: after one byte and a
   failed seek, a registry can get bytes accepted that do not have the digest.
   */
  lemma LostFileHandsWrongBytes()
    ensures var identity := (b: Bytes) => b;
            var fine := Local(true, true, true, true, true, true, NoFault);
            var first := Remote(BlobOpen, true, None, true, [[1]], ReadFails(true));
            var second := Remote(BlobOpen, true, None, true, [[2]], EndOfBlob);
            Downloads(identity, [1, 2], State(None, None), [(fine, first), (fine.(seekEndOK := false), second)]).1
            == Handed([2])
  {
    var identity := (b: Bytes) => b;
    var fine := Local(true, true, true, true, true, true, NoFault);
    var first := Remote(BlobOpen, true, None, true, [[1]], ReadFails(true));
    var second := Remote(BlobOpen, true, None, true, [[2]], EndOfBlob);
    var tries := [(fine, first), (fine.(seekEndOK := false), second)];
    var s1 := State(Some(File([1], 1)), Some([1]));
    assert Copy(File([], 0), [], [[1]], 0, NoFault) == (File([1], 1), [1], true) by {
      assert Write(File([], 0), [1]) == File([1], 1);
      assert [] + [1] == [1 as Byte];
    }
    assert Attempt(identity, [1, 2], State(None, None), fine, first) == (s1, Retry);
    assert Copy(File([], 0), [1], [[2]], 0, NoFault) == (File([2], 1), [1, 2], true) by {
      assert Write(File([], 0), [2]) == File([2], 1);
      assert [1] + [2] == [1 as Byte, 2];
    }
    assert Attempt(identity, [1, 2], s1, tries[1].0, tries[1].1).1 == Handed([2]);
    assert tries[1..] == [tries[1]];
  }

  // ---- resuming from a registry that serves one blob ----

  function Concat(chunks: seq<Bytes>, i: nat): Bytes
    requires i <= |chunks|
    decreases |chunks| - i
  {
    if i == |chunks| then [] else chunks[i] + Concat(chunks, i + 1)
  }

  /** The registry sends a stretch of the blob from the offset asked for, all of it unless it fails. */
  ghost predicate Serves(blob: Bytes, offset: nat, r: Remote)
  {
    && offset <= |blob| && Concat(r.chunks, 0) <= blob[offset..]
    && (r.end.EndOfBlob? ==> Concat(r.chunks, 0) == blob[offset..])
    && (r.size.Some? ==> r.size.value == |blob|)
  }

  ghost predicate HoldsPrefix(s: State, blob: Bytes)
  {
    s.file.Some? ==> s.file.value.data <= blob
  }

  lemma {:induction false} CopyAppends(f: File, fed: Bytes, chunks: seq<Bytes>, i: nat, fault: WriteFault)
    requires f.pos == |f.data| && i <= |chunks| && Copy(f, fed, chunks, i, fault).2
    ensures Copy(f, fed, chunks, i, fault).0.data == f.data + Concat(chunks, i)
    decreases |chunks| - i
  {
    if i < |chunks| {
      var g := Write(f, chunks[i]);
      assert g.data == f.data + chunks[i];
      CopyAppends(g, fed + chunks[i], chunks, i + 1, fault);
      assert f.data + chunks[i] + Concat(chunks, i + 1) == f.data + (chunks[i] + Concat(chunks, i + 1));
    }
  }

  /** A write that fails leaves the verifier ahead of the file by exactly the bytes it did not store. */
  lemma {:induction false} FailedWriteFallsBehind(f: File, fed: Bytes, chunks: seq<Bytes>, i: nat, fault: WriteFault)
    requires f.pos == |f.data| && f.data == fed && i <= |chunks| && !Copy(f, fed, chunks, i, fault).2
    ensures var (g, seen, _) := Copy(f, fed, chunks, i, fault);
            && fault.at < |chunks| && fault.keep < |chunks[fault.at]|
            && seen == g.data + chunks[fault.at][fault.keep..]
            && seen + Concat(chunks, fault.at + 1) == fed + Concat(chunks, i)
    decreases |chunks| - i
  {
    if fault.at == i && fault.keep < |chunks[i]| {
      assert chunks[i] == chunks[i][..fault.keep] + chunks[i][fault.keep..];
      assert Write(f, chunks[i][..fault.keep]).data == f.data + chunks[i][..fault.keep];
      assert fed + chunks[i] + Concat(chunks, i + 1) == fed + (chunks[i] + Concat(chunks, i + 1));
    } else {
      var g := Write(f, chunks[i]);
      assert g.data == f.data + chunks[i];
      FailedWriteFallsBehind(g, fed + chunks[i], chunks, i + 1, fault);
      assert fed + chunks[i] + Concat(chunks, i + 1) == fed + (chunks[i] + Concat(chunks, i + 1));
    }
  }

  lemma CopyFromBlob(f: File, fed: Bytes, r: Remote, blob: Bytes)
    requires f.data <= blob && f.pos == |f.data| && Serves(blob, |f.data|, r)
    ensures var (g, _, wrote) := Copy(f, fed, r.chunks, 0, NoFault);
            wrote && g.data <= blob && (r.end.EndOfBlob? ==> g.data == blob)
  {
    CopyWithoutFault(f, fed, r.chunks, 0, NoFault);
    CopyAppends(f, fed, r.chunks, 0, NoFault);
    assert blob == f.data + blob[|f.data|..];
  }

  lemma TransferHoldsPrefix<D>(hash: Bytes -> D, digest: D, s: State, offset: nat, l: Local, r: Remote, blob: Bytes)
    requires s.file.Some? && s.file.value.data <= blob && s.file.value.pos == offset == |s.file.value.data|
    requires l.write == NoFault && Serves(blob, offset, r)
    ensures var (t, o) := Transfer(hash, digest, s, offset, l, r);
            HoldsPrefix(t, blob) && (o.Handed? ==> o.bytes == blob)
  {
    CopyFromBlob(s.file.value, if s.verifier.Some? then s.verifier.value else [], r, blob);
  }

  /** Where the next attempt resumes. */
  function OffsetOf(s: State, l: Local): nat
  {
    if s.file.Some? && l.seekEndOK then |s.file.value.data| else 0
  }

  /**
   Against a registry that serves the same blob each time, every attempt leaves
   a prefix of the blob in the file, whether it resumed, started over or failed,
   and what is handed on is the whole blob.
   */
  lemma ResumeHoldsPrefix<D>(hash: Bytes -> D, digest: D, s: State, l: Local, r: Remote, blob: Bytes)
    requires InStep(s) && Positioned(s) && HoldsPrefix(s, blob) && l.write == NoFault
    requires Serves(blob, OffsetOf(s, l), r)
    ensures var (t, o) := Attempt(hash, digest, s, l, r);
            HoldsPrefix(t, blob) && (o.Handed? ==> o.bytes == blob)
  {
    var p := Prepare(s, l);
    if p.Ready? && r.open.BlobOpen? {
      TransferHoldsPrefix(hash, digest, p.state, p.offset, l, r, blob);
    }
  }

  /** Nothing fails, here or at the registry. */
  predicate Faultless(l: Local, r: Remote)
  {
    && l.createOK && l.seekEndOK && l.verifierOK && l.rewindOK && l.write == NoFault
    && r.open.BlobOpen? && r.seekOffsetOK && r.seekBackOK && r.end.EndOfBlob?
  }

  /** An attempt in which nothing fails completes the download from whatever prefix there is. */
  lemma AttemptCompletes<D>(hash: Bytes -> D, digest: D, s: State, l: Local, r: Remote, blob: Bytes)
    requires InStep(s) && Positioned(s) && HoldsPrefix(s, blob) && hash(blob) == digest
    requires Faultless(l, r) && Serves(blob, OffsetOf(s, l), r)
    ensures Attempt(hash, digest, s, l, r) == (State(None, Some(blob)), Handed(blob))
  {
    var p := Prepare(s, l);
    var f, fed := p.state.file.value, if s.verifier.Some? then s.verifier.value else [];
    CopyFromBlob(f, fed, r, blob);
    CopyInStep(f, fed, r.chunks, 0, NoFault);
  }

  /** Truncating forgets the verifier in any case, and succeeds exactly when it leaves an empty file. */
  lemma TruncateExactly(s: State, l: Local)
    requires s.file.Some?
    ensures var (t, ok) := Truncate(s, l);
            && t.verifier.None? && t.file.Some?
            && (ok <==> l.truncateSeekOK && l.truncateOK)
            && t.file.value.data == (if ok then [] else s.file.value.data)
            && (l.truncateSeekOK ==> t.file.value.pos == 0)
  {
  }

  // ---- when an attempt is repeated ----

  /** Every local operation succeeds. */
  predicate LocalOK(l: Local)
  {
    && l.createOK && l.seekEndOK && l.truncateSeekOK && l.truncateOK && l.verifierOK && l.rewindOK && l.write == NoFault
  }

  /** The file is longer than the blob the registry reports. */
  predicate TooLong(s: State, l: Local, r: Remote)
  {
    r.size.Some? && r.size.value != 0 && OffsetOf(s, l) > r.size.value
  }

  /** The registry opens the blob and can be positioned where the attempt resumes. */
  predicate ReachesTransfer(s: State, l: Local, r: Remote)
  {
    && r.open.BlobOpen?
    && (OffsetOf(s, l) != 0 ==> r.seekOffsetOK)
    && (r.size.Some? ==> r.seekBackOK)
  }

  /** What the file holds when the transfer starts. */
  function KeptBytes(s: State, l: Local, r: Remote): Bytes
  {
    if s.file.Some? && l.seekEndOK && !TooLong(s, l, r) then s.file.value.data else []
  }

  /**
   What the registry does that ends a download for good: it does not know the
   blob, it fails in a way that is not retried, or all it sends, from the very
   beginning, has the wrong digest.
   */
  predicate FinalForRegistry<D(==)>(hash: Bytes -> D, digest: D, s: State, l: Local, r: Remote)
  {
    || r.open.BlobUnknown?
    || (r.open.OpenFails? && !r.open.retryable)
    || (ReachesTransfer(s, l, r) && r.end.ReadFails? && !r.end.retryable)
    || (ReachesTransfer(s, l, r) && r.end.EndOfBlob? && KeptBytes(s, l, r) == [] && hash(Concat(r.chunks, 0)) != digest)
  }

  lemma TransferOutcome<D>(hash: Bytes -> D, digest: D, s: State, offset: nat, l: Local, r: Remote)
    requires s.file.Some? && s.file.value.pos == |s.file.value.data| == offset && InStep(s) && LocalOK(l)
    ensures var all := s.file.value.data + Concat(r.chunks, 0);
            Transfer(hash, digest, s, offset, l, r).1 ==
            match r.end
            case ReadFails(retryable) => Retried(retryable)
            case WrongByteRange => Retry
            case EndOfBlob => if hash(all) == digest then Handed(all) else if offset != 0 then Retry else DoNotRetry
  {
    var f, fed := s.file.value, if s.verifier.Some? then s.verifier.value else [];
    CopyWithoutFault(f, fed, r.chunks, 0, NoFault);
    CopyAppends(f, fed, r.chunks, 0, NoFault);
    CopyInStep(f, fed, r.chunks, 0, NoFault);
  }

  /**
   With local operations that succeed, an attempt is given up exactly for these
   reasons; every other one is handed on or repeated.
   */
  lemma GivenUpExactly<D>(hash: Bytes -> D, digest: D, s: State, l: Local, r: Remote)
    requires InStep(s) && Positioned(s) && LocalOK(l)
    ensures Attempt(hash, digest, s, l, r).1.DoNotRetry? <==> FinalForRegistry(hash, digest, s, l, r)
  {
    var p := Prepare(s, l);
    if r.open.BlobOpen? && (p.offset != 0 ==> r.seekOffsetOK) {
      var u := if TooLong(s, l, r) then Truncate(p.state, l).0 else p.state;
      TransferOutcome(hash, digest, u, if TooLong(s, l, r) then 0 else p.offset, l, r);
      assert [] + Concat(r.chunks, 0) == Concat(r.chunks, 0);
    }
  }

  /** A download ends when no file can be made and when no verifier can. */
  lemma CannotStart<D>(hash: Bytes -> D, digest: D, s: State, l: Local, r: Remote)
    requires InStep(s) && Positioned(s)
    ensures !l.createOK && (s.file.None? || !l.seekEndOK) ==>
              Attempt(hash, digest, s, l, r) == (State(None, s.verifier), DoNotRetry)
    ensures LocalOK(l.(verifierOK := true)) && !l.verifierOK && s.verifier.None? && ReachesTransfer(s, l, r) ==>
              Attempt(hash, digest, s, l, r).1 == DoNotRetry
  {
  }

  lemma TransferCannotRewind<D>(hash: Bytes -> D, digest: D, s: State, offset: nat, l: Local, r: Remote)
    requires s.file.Some? && s.file.value.Valid() && !l.rewindOK
    requires Transfer(hash, digest, s, offset, l.(rewindOK := true), r).1.Handed?
    ensures Transfer(hash, digest, s, offset, l, r) == (State(None, None), DoNotRetry)
  {
  }

  /** It also ends when the complete file cannot be rewound, and nothing is kept of it. */
  lemma CannotRewind<D>(hash: Bytes -> D, digest: D, s: State, l: Local, r: Remote)
    requires InStep(s) && Positioned(s) && !l.rewindOK
    requires Attempt(hash, digest, s, l.(rewindOK := true), r).1.Handed?
    ensures Attempt(hash, digest, s, l, r) == (State(None, None), DoNotRetry)
  {
    var p := Prepare(s, l);
    var u := if TooLong(s, l, r) then Truncate(p.state, l).0 else p.state;
    TransferCannotRewind(hash, digest, u, if TooLong(s, l, r) then 0 else p.offset, l, r);
  }

  /** What is handed on is what the file held, unless it was too long, and what the registry sent after that. */
  lemma HandedIsKeptAndSent<D>(hash: Bytes -> D, digest: D, s: State, l: Local, r: Remote)
    requires InStep(s) && Positioned(s)
    ensures var o := Attempt(hash, digest, s, l, r).1;
            o.Handed? ==> ReachesTransfer(s, l, r) && o.bytes == KeptBytes(s, l, r) + Concat(r.chunks, 0)
  {
    var p := Prepare(s, l);
    if Attempt(hash, digest, s, l, r).1.Handed? {
      var f := if TooLong(s, l, r) then File([], 0) else p.state.file.value;
      var fed := if s.verifier.Some? && !TooLong(s, l, r) then s.verifier.value else [];
      CopyAppends(f, fed, r.chunks, 0, l.write);
    }
  }

  /**
   A resumed attempt that cannot be trusted starts over: when the registry does
   not take the offset or answers with another range, or the digest turns out
   wrong, the file is emptied, the verifier forgotten, and the attempt repeated.
   */
  lemma StartsOver<D>(hash: Bytes -> D, digest: D, s: State, l: Local, r: Remote)
    requires InStep(s) && Positioned(s) && LocalOK(l) && r.open.BlobOpen? && OffsetOf(s, l) != 0
    requires || !r.seekOffsetOK
             || (ReachesTransfer(s, l, r) && r.end.WrongByteRange?)
             || (&& ReachesTransfer(s, l, r) && r.end.EndOfBlob? && !TooLong(s, l, r)
                 && hash(s.file.value.data + Concat(r.chunks, 0)) != digest)
    ensures Attempt(hash, digest, s, l, r) == (State(Some(File([], 0)), None), Retry)
  {
    var p := Prepare(s, l);
    if r.seekOffsetOK {
      var u := if TooLong(s, l, r) then Truncate(p.state, l).0 else p.state;
      TransferOutcome(hash, digest, u, if TooLong(s, l, r) then 0 else p.offset, l, r);
    }
  }

  /** Every attempt made is served from the blob and loses neither file nor write. */
  ghost predicate HonestTries<D>(hash: Bytes -> D, digest: D, s: State, tries: seq<(Local, Remote)>, blob: Bytes)
    requires Positioned(s)
    decreases tries
  {
    tries == [] ||
    (&& tries[0].0.write == NoFault && !LosesFile(s, tries[0].0)
     && Serves(blob, OffsetOf(s, tries[0].0), tries[0].1)
     && var (t, o) := Attempt(hash, digest, s, tries[0].0, tries[0].1);
        o.Retry? ==> HonestTries(hash, digest, t, tries[1..], blob))
  }

  /** Failures that are worth another attempt: local operations succeed and the registry's errors are transient. */
  predicate Transient(l: Local, r: Remote)
  {
    && LocalOK(l)
    && !r.open.BlobUnknown? && (r.open.OpenFails? ==> r.open.retryable) && (r.end.ReadFails? ==> r.end.retryable)
  }

  lemma TransientRetried<D>(hash: Bytes -> D, digest: D, s: State, l: Local, r: Remote, blob: Bytes)
    requires InStep(s) && Positioned(s) && HoldsPrefix(s, blob) && hash(blob) == digest
    requires Transient(l, r) && Serves(blob, OffsetOf(s, l), r)
    ensures !Attempt(hash, digest, s, l, r).1.DoNotRetry?
  {
    GivenUpExactly(hash, digest, s, l, r);
    if r.end.EndOfBlob? && KeptBytes(s, l, r) == [] {
      assert blob[0..] == blob;
    }
  }

  /**
   Over any sequence of attempts served from one blob, failing anywhere, what is
   handed on is the blob.  If nothing fails in the last of them, it is handed on
   unless an earlier attempt was given up for good, and none is if only transient
   errors occur.
   */
  lemma {:induction false} DownloadCompletes<D>(hash: Bytes -> D, digest: D, s: State, tries: seq<(Local, Remote)>, blob: Bytes)
    requires InStep(s) && Positioned(s) && HoldsPrefix(s, blob) && hash(blob) == digest
    requires HonestTries(hash, digest, s, tries, blob)
    ensures var (t, o) := Downloads(hash, digest, s, tries);
            && HoldsPrefix(t, blob) && (o.Handed? ==> o.bytes == blob)
            && (tries != [] && Faultless(tries[|tries| - 1].0, tries[|tries| - 1].1) ==> o == Handed(blob) || o.DoNotRetry?)
            && ((forall i :: 0 <= i < |tries| ==> Transient(tries[i].0, tries[i].1)) ==> !o.DoNotRetry?)
    decreases tries
  {
    if tries != [] {
      var (l, r) := tries[0];
      var (t, o) := Attempt(hash, digest, s, l, r);
      ResumeHoldsPrefix(hash, digest, s, l, r, blob);
      AttemptSafe(hash, digest, s, l, r);
      if Transient(l, r) {
        TransientRetried(hash, digest, s, l, r, blob);
      }
      if o.Retry? {
        DownloadCompletes(hash, digest, t, tries[1..], blob);
        assert forall i :: 0 <= i < |tries| - 1 ==> tries[1..][i] == tries[i + 1];
      }
      if |tries| == 1 && Faultless(l, r) {
        AttemptCompletes(hash, digest, s, l, r, blob);
      }
    }
  }

  // ---- the descriptor itself ----

  class LayerDescriptor<D(==)> {
    const hash: Bytes -> D
    const digest: D
    var tmpFile: Option<File>
    var verifier: Option<Bytes>

    ghost function Value(): State
      reads this
    {
      State(tmpFile, verifier)
    }

    constructor (hash: Bytes -> D, digest: D)
      ensures this.hash == hash && this.digest == digest && Value() == State(None, None)
      ensures InStep(Value()) && Positioned(Value())
    {
      this.hash, this.digest := hash, digest;
      tmpFile, verifier := None, None;
    }

    method TruncateDownloadFile(l: Local) returns (ok: bool)
      requires tmpFile.Some?
      modifies this
      ensures (Value(), ok) == Truncate(old(Value()), l)
    {
      verifier := None;
      if !l.truncateSeekOK {
        return false;
      }
      tmpFile := Some(tmpFile.value.(pos := 0));
      if !l.truncateOK {
        return false;
      }
      tmpFile := Some(File([], 0));
      ok := true;
    }

    /** Reads chunk by chunk, feeding each to the verifier and then to the file. */
    method CopyToFile(chunks: seq<Bytes>, fault: WriteFault) returns (wrote: bool)
      requires tmpFile.Some? && tmpFile.value.Valid() && verifier.Some?
      modifies this
      ensures tmpFile.Some? && verifier.Some?
      ensures (tmpFile.value, verifier.value, wrote) ==
              Copy(old(tmpFile.value), old(verifier.value), chunks, 0, fault)
    {
      for i := 0 to |chunks|
        invariant tmpFile.Some? && tmpFile.value.Valid() && verifier.Some?
        invariant Copy(old(tmpFile.value), old(verifier.value), chunks, 0, fault)
                  == Copy(tmpFile.value, verifier.value, chunks, i, fault)
      {
        verifier := Some(verifier.value + chunks[i]);
        if fault.Short? && fault.at == i && fault.keep < |chunks[i]| {
          tmpFile := Some(Write(tmpFile.value, chunks[i][..fault.keep]));
          return false;
        }
        tmpFile := Some(Write(tmpFile.value, chunks[i]));
      }
      wrote := true;
    }

    /** One attempt: resumes from the file if there is one, and verifies at the end. */
    method Download(l: Local, r: Remote) returns (o: Outcome)
      requires Positioned(Value())
      modifies this
      ensures (Value(), o) == Attempt(hash, digest, old(Value()), l, r)
      ensures old(InStep(Value()) && !LosesFile(Value(), l) && !LosesWrite(Value(), l)) ==> Safe(hash, digest, (Value(), o))
    {
      if InStep(Value()) && !LosesFile(Value(), l) && !LosesWrite(Value(), l) {
        AttemptSafe(hash, digest, Value(), l, r);
      }
      var offset := 0;
      if tmpFile.Some? && l.seekEndOK {
        offset := |tmpFile.value.data|;
        tmpFile := Some(tmpFile.value.(pos := offset));
      } else if l.createOK {
        tmpFile := Some(File([], 0));
      } else {
        tmpFile := None;
        return DoNotRetry;
      }
      match r.open {
        case BlobUnknown => return DoNotRetry;
        case OpenFails(retryable) => return Retried(retryable);
        case BlobOpen =>
      }
      if offset != 0 && !r.seekOffsetOK {
        var ok := TruncateDownloadFile(l);
        return if ok then Retry else DoNotRetry;
      }
      if r.size.Some? {
        if r.size.value != 0 && offset > r.size.value {
          offset := 0;
          var ok := TruncateDownloadFile(l);
          if !ok {
            return DoNotRetry;
          }
        }
        if !r.seekBackOK {
          return Retry;
        }
      }
      o := TransferAndVerify(offset, l, r);
    }

    method TransferAndVerify(offset: nat, l: Local, r: Remote) returns (o: Outcome)
      requires tmpFile.Some? && tmpFile.value.Valid()
      modifies this
      ensures (Value(), o) == Transfer(hash, digest, old(Value()), offset, l, r)
    {
      if verifier.None? {
        if !l.verifierOK {
          return DoNotRetry;
        }
        verifier := Some([]);
      }
      var wrote := CopyToFile(r.chunks, l.write);
      if !wrote {
        return Retried(!l.write.noSpace);
      }
      if r.end.ReadFails? {
        return Retried(r.end.retryable);
      }
      if r.end.WrongByteRange? || (hash(verifier.value) != digest && offset != 0) {
        var ok := TruncateDownloadFile(l);
        return if ok then Retry else DoNotRetry;
      }
      if hash(verifier.value) != digest {
        return DoNotRetry;
      }
      var file := tmpFile.value;
      tmpFile := None;
      if !l.rewindOK {
        verifier := None;
        return DoNotRetry;
      }
      o := Handed(file.data);
    }
  }
}
