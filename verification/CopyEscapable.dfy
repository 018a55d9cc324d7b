/**
 Copying an attached terminal's input to a container until it ends or the
 detach keys are typed.
 */
module CopyEscapable {
  type Byte = bv8
  type Bytes = seq<Byte>

  datatype ReadError = NoError | EOF | Broken

  /** What one read returns. */
  datatype Read = Read(data: Bytes, err: ReadError)

  /** How much of a write is stored, at most everything, and whether it fails. */
  datatype WriteResult = WriteResult(stored: nat, fails: bool)

  datatype Outcome = Finished | ReadFailed | Detached | WriteFailed | ShortWrite

  const BUFFER_SIZE := 32 * 1024

  /** ctrl-p ctrl-q, unless other keys are given. */
  function DetachKeys(keys: Bytes): (k: Bytes)
    ensures k != [] && (keys != [] ==> k == keys)
  {
    if keys == [] then [16, 17] else keys
  }

  // ---- when the input detaches ----

  /** The number of leading reads that each consist of just the next key. */
  function Matched(input: seq<Read>, keys: Bytes): (m: nat)
    ensures m <= |input| && m <= |keys|
  {
    if keys == [] || input == [] || input[0].data != [keys[0]] then 0
    else 1 + Matched(input[1..], keys[1..])
  }

  function ErrorAt(input: seq<Read>, i: nat): ReadError
  {
    if i < |input| then input[i].err else EOF
  }

  /** How a copy ends, and the reads it leaves when it does not detach. */
  datatype Ending = Ending(outcome: Outcome, left: seq<Read>)

  /**
   The ending of a copy whose writes succeed.  The keys are looked for from the
   start of a group of reads only.  A group ends with the first read that does
   not match; the next one starts after it, unless that read came with an error.
   */
  function EndOf(input: seq<Read>, keys: Bytes): Ending
    decreases |input|
  {
    if input == [] then Ending(Finished, [])
    else
      var m := if input[0].data == [] then 0 else Matched(input, keys);
      if input[0].data != [] && m == |keys| then Ending(Detached, [])
      else if m == |input| then Ending(Finished, [])
      else
        match input[m].err
        case EOF => Ending(Finished, input[m + 1..])
        case Broken => Ending(ReadFailed, input[m + 1..])
        case NoError => EndOf(input[m + 1..], keys)
  }

  predicate Detaches(input: seq<Read>, keys: Bytes)
  {
    EndOf(input, keys).outcome == Detached
  }

  /** Reads that type the keys one at a time, at the start of a group. */
  ghost predicate TypesKeys(input: seq<Read>, keys: Bytes)
  {
    |input| >= |keys| && forall i :: 0 <= i < |keys| ==> input[i].data == [keys[i]]
  }

  lemma {:induction false} MatchedAll(input: seq<Read>, keys: Bytes)
    ensures Matched(input, keys) == |keys| <==> TypesKeys(input, keys)
  {
    if keys != [] && input != [] && input[0].data == [keys[0]] {
      MatchedAll(input[1..], keys[1..]);
      if TypesKeys(input[1..], keys[1..]) {
        forall i | 0 <= i < |keys| ensures input[i].data == [keys[i]] {
          if i > 0 {
            assert input[1..][i - 1].data == [keys[1..][i - 1]];
          }
        }
      }
      if TypesKeys(input, keys) {
        forall i | 0 <= i < |keys[1..]| ensures input[1..][i].data == [keys[1..][i]] {
          assert input[i + 1].data == [keys[i + 1]];
        }
      }
    }
  }

  /** Inside a group they need not: ctrl-p ctrl-p ctrl-q ends with the default keys and does not detach. */
  lemma MissedDetach()
    ensures var keys := DetachKeys([]);
            var typed := [Read([16], NoError), Read([16], NoError), Read([17], NoError)];
            TypesKeys(typed[1..], keys) && !Detaches(typed, keys)
  {
    var keys := DetachKeys([]);
    RepeatedFirstKeyHides(keys, 1);
    assert [keys[0]] + keys == [16, 16, 17];
    assert Typing([16, 16, 17]) == [Read([16], NoError), Read([16], NoError), Read([17], NoError)];
  }

  /** The keys are typed one at a time somewhere in the input. */
  ghost predicate TypedSomewhere(input: seq<Read>, keys: Bytes)
  {
    exists j :: 0 <= j <= |input| && TypesKeys(input[j..], keys)
  }

  ghost predicate ErrorFree(input: seq<Read>)
  {
    forall i :: 0 <= i < |input| ==> input[i].err.NoError?
  }

  ghost predicate AllEqual(keys: Bytes)
  {
    forall i :: 0 <= i < |keys| ==> keys[i] == keys[0]
  }

  lemma {:induction false} MatchedFrom(input: seq<Read>, keys: Bytes, i: nat)
    requires i <= |input| && i <= |keys|
    requires forall k :: 0 <= k < i ==> input[k].data == [keys[k]]
    ensures Matched(input, keys) == i + Matched(input[i..], keys[i..])
  {
    if i == 0 {
      assert input[0..] == input && keys[0..] == keys;
    } else {
      assert input[0].data == [keys[0]];
      forall k | 0 <= k < i - 1 ensures input[1..][k].data == [keys[1..][k]] {
        assert input[k + 1].data == [keys[k + 1]];
      }
      MatchedFrom(input[1..], keys[1..], i - 1);
      assert input[1..][i - 1..] == input[i..] && keys[1..][i - 1..] == keys[i..];
    }
  }

  lemma {:induction false} MatchedMismatch(input: seq<Read>, keys: Bytes)
    ensures var m := Matched(input, keys);
            m < |keys| && m < |input| ==> input[m].data != [keys[m]]
  {
    if keys != [] && input != [] && input[0].data == [keys[0]] {
      MatchedMismatch(input[1..], keys[1..]);
    }
  }

  /** With equal keys a group cannot swallow the start of a typed sequence without detaching. */
  lemma {:induction false} EqualKeysDetach(input: seq<Read>, keys: Bytes, j: nat)
    requires keys != [] && AllEqual(keys) && ErrorFree(input)
    requires j <= |input| && TypesKeys(input[j..], keys)
    ensures Detaches(input, keys)
    decreases |input|
  {
    forall k | j <= k < j + |keys| ensures input[k].data == [keys[0]] {
      assert input[j..][k - j].data == [keys[k - j]];
    }
    var m := Matched(input, keys);
    MatchedMismatch(input, keys);
    if input[0].data == [] {
      assert input[j..][0].data == [keys[0]];
      assert input[1..][j - 1..] == input[j..];
      EqualKeysDetach(input[1..], keys, j - 1);
    } else if m < |keys| {
      assert m < j;
      assert input[m + 1..][j - m - 1..] == input[j..];
      EqualKeysDetach(input[m + 1..], keys, j - m - 1);
    }
  }

  lemma {:induction false} TooShortToDetach(input: seq<Read>, keys: Bytes)
    requires |input| < |keys|
    ensures !Detaches(input, keys)
    decreases |input|
  {
    if input != [] {
      TooShortToDetach(input[1..], keys);
      var m := Matched(input, keys);
      if m < |input| {
        TooShortToDetach(input[m + 1..], keys);
      }
    }
  }

  /** Typing the keys from the first read on detaches, and no input of that length detaches otherwise. */
  lemma TypedKeysDetach(input: seq<Read>, keys: Bytes)
    requires keys != []
    ensures TypesKeys(input, keys) ==> Detaches(input, keys)
    ensures |input| <= |keys| ==> (Detaches(input, keys) <==> TypesKeys(input, keys))
  {
    MatchedAll(input, keys);
    var m := Matched(input, keys);
    if input != [] && |input| <= |keys| {
      TooShortToDetach(input[1..], keys);
      if m < |input| {
        TooShortToDetach(input[m + 1..], keys);
      }
    }
    if TypesKeys(input, keys) {
      assert input[0].data == [keys[0]];
    }
  }

  /** One read per byte. */
  function Typing(bytes: Bytes): (input: seq<Read>)
    ensures |input| == |bytes| && forall i :: 0 <= i < |bytes| ==> input[i] == Read([bytes[i]], NoError)
  {
    seq(|bytes|, i requires 0 <= i < |bytes| => Read([bytes[i]], NoError))
  }

  lemma FirstGroupMatches(keys: Bytes, p: nat)
    requires 0 < p < |keys| && keys[p] != keys[0] && forall i :: 0 <= i < p ==> keys[i] == keys[0]
    ensures Matched(Typing([keys[0]] + keys), keys) == p
  {
    var typed := [keys[0]] + keys;
    var input := Typing(typed);
    forall k | 0 <= k < p ensures input[k].data == [keys[k]] {
      assert typed[k] == keys[if k == 0 then 0 else k - 1];
    }
    MatchedFrom(input, keys, p);
    assert typed[p] == keys[p - 1];
    assert input[p..][0].data == [keys[0]] && keys[p..][0] == keys[p];
  }

  /** If the keys differ, typing the first key once more ahead of them hides them. */
  lemma RepeatedFirstKeyHides(keys: Bytes, p: nat)
    requires 0 < p < |keys| && keys[p] != keys[0] && forall i :: 0 <= i < p ==> keys[i] == keys[0]
    ensures var input := Typing([keys[0]] + keys);
            ErrorFree(input) && TypesKeys(input[1..], keys) && !Detaches(input, keys)
  {
    var input := Typing([keys[0]] + keys);
    FirstGroupMatches(keys, p);
    TooShortToDetach(input[p + 1..], keys);
    assert input[0].data != [];
  }

  /**
   Exactly which keys can be relied on: typing them anywhere in an input without
   read errors detaches, whatever comes before, if and only if all keys are equal.
   */
  lemma ReliableKeysExactly(keys: Bytes)
    requires keys != []
    ensures (forall input :: ErrorFree(input) && TypedSomewhere(input, keys) ==> Detaches(input, keys))
            <==> AllEqual(keys)
  {
    if AllEqual(keys) {
      forall input | ErrorFree(input) && TypedSomewhere(input, keys) ensures Detaches(input, keys) {
        var j :| 0 <= j <= |input| && TypesKeys(input[j..], keys);
        EqualKeysDetach(input, keys, j);
      }
    } else {
      var p := FirstDifferent(keys);
      RepeatedFirstKeyHides(keys, p);
      assert TypedSomewhere(Typing([keys[0]] + keys), keys);
    }
  }

  lemma FirstDifferent(keys: Bytes) returns (p: nat)
    requires keys != [] && !AllEqual(keys)
    ensures 0 < p < |keys| && keys[p] != keys[0] && forall i :: 0 <= i < p ==> keys[i] == keys[0]
  {
    p := 1;
    while p < |keys| && keys[p] == keys[0]
      invariant 1 <= p <= |keys| && forall i :: 0 <= i < p ==> keys[i] == keys[0]
    {
      p := p + 1;
    }
  }

  /** Without read errors a copy reads its input to the end or detaches. */
  lemma {:induction false} ReadsToTheEnd(input: seq<Read>, keys: Bytes)
    requires ErrorFree(input)
    ensures Detaches(input, keys) || EndOf(input, keys) == Ending(Finished, [])
    decreases |input|
  {
    if input != [] {
      var m := if input[0].data == [] then 0 else Matched(input, keys);
      if m < |input| {
        ReadsToTheEnd(input[m + 1..], keys);
      }
    }
  }

  lemma DropTwice(input: seq<Read>, a: nat, b: nat)
    requires a + b <= |input|
    ensures input[a..][b..] == input[a + b..]
  {
  }

  /** A copy fails only at a broken read, and leaves exactly what comes after it. */
  lemma {:induction false} FailsAtBrokenRead(input: seq<Read>, keys: Bytes) returns (i: nat)
    requires EndOf(input, keys).outcome == ReadFailed
    ensures i < |input| && input[i].err == Broken && EndOf(input, keys).left == input[i + 1..]
    decreases |input|
  {
    var m := if input[0].data == [] then 0 else Matched(input, keys);
    var rest := input[m + 1..];
    if input[m].err.NoError? {
      assert EndOf(input, keys) == EndOf(rest, keys);
      var k := FailsAtBrokenRead(rest, keys);
      i := m + 1 + k;
      assert rest[k] == input[i];
      DropTwice(input, m + 1, k + 1);
    } else {
      assert EndOf(input, keys) == Ending(ReadFailed, rest);
      i := m;
    }
  }

  /** A copy detaches only if the keys are typed somewhere. */
  lemma {:induction false} DetachesOnlyWhenTyped(input: seq<Read>, keys: Bytes) returns (j: nat)
    requires Detaches(input, keys)
    ensures j <= |input| && TypesKeys(input[j..], keys)
    decreases |input|
  {
    var m := if input[0].data == [] then 0 else Matched(input, keys);
    if input[0].data != [] && m == |keys| {
      MatchedAll(input, keys);
      assert input[0..] == input;
      j := 0;
    } else {
      j := DetachesOnlyWhenTyped(input[m + 1..], keys);
      assert input[m + 1 + j..] == input[m + 1..][j..];
      j := m + 1 + j;
    }
  }

  // ---- the streams ----

  /** Everything the reads return. */
  function AllData(input: seq<Read>): Bytes
  {
    if input == [] then [] else input[0].data + AllData(input[1..])
  }

  class Source {
    var input: seq<Read>  // what the following reads return; then end of input
    var closed: bool
    ghost var consumed: Bytes

    /** What was read so far and what is still to come. */
    ghost function Total(): Bytes
      reads this
    {
      consumed + AllData(input)
    }

    constructor (input: seq<Read>)
      ensures this.input == input && consumed == [] && !closed
    {
      this.input := input;
      consumed := [];
      closed := false;
    }

    method ReadInto(buf: array<Byte>) returns (n: nat, err: ReadError)
      requires forall r :: r in input ==> |r.data| <= buf.Length
      modifies this`input, this`consumed, buf
      ensures n <= buf.Length && consumed == old(consumed) + buf[..n]
      ensures old(input) == [] ==> input == [] && n == 0 && err == EOF
      ensures old(input) != [] ==> input == old(input)[1..] && Read(buf[..n], err) == old(input)[0]
      ensures Total() == old(Total())
    {
      if input == [] {
        assert consumed + buf[..0] == consumed;
        return 0, EOF;
      }
      var data := input[0].data;
      n, err := |data|, input[0].err;
      assert input[0] in input;
      forall i | 0 <= i < n {
        buf[i] := data[i];
      }
      assert buf[..n] == data;
      Associate(consumed, data, AllData(input[1..]));
      input := input[1..];
      consumed := consumed + data;
    }

    method Close()
      modifies this`closed
      ensures closed
    {
      closed := true;
    }
  }

  class Sink {
    var results: seq<WriteResult>  // what the following writes give; then all succeed
    var written: Bytes
    ghost var failed: bool  // a write has failed
    ghost var cutShort: bool  // a write has stored less than it was given

    constructor (results: seq<WriteResult>)
      ensures this.results == results && written == [] && !failed && !cutShort
    {
      this.results := results;
      written := [];
      failed, cutShort := false, false;
    }

    method Write(data: Bytes) returns (n: nat, fails: bool)
      modifies this
      ensures n <= |data| && written == old(written) + data[..n]
      ensures old(results) == [] ==> results == [] && n == |data| && !fails
      ensures failed == (old(failed) || fails) && cutShort == (old(cutShort) || n < |data|)
    {
      if results == [] {
        n, fails := |data|, false;
      } else {
        n := if results[0].stored <= |data| then results[0].stored else |data|;
        fails := results[0].fails;
        results := results[1..];
      }
      written := written + data[..n];
      failed, cutShort := failed || fails, cutShort || n < |data|;
    }
  }

  // ---- the copy ----

  /** What has been stored when the copy ends, out of what was read. */
  ghost predicate Conserves(consumed: Bytes, written: Bytes, keys: Bytes, outcome: Outcome)
  {
    match outcome
    case Finished => written == consumed
    case ReadFailed => written == consumed
    case Detached => consumed == written + keys
    case WriteFailed => written <= consumed
    case ShortWrite => written < consumed
  }

  lemma TakeNext(keys: Bytes, i: nat)
    requires i < |keys|
    ensures keys[..i] + [keys[i]] == keys[..i + 1] && (i + 1 == |keys| ==> keys[..i + 1] == keys)
  {
  }

  /** Storing n bytes of b after a. */
  lemma StoresPart(a: Bytes, b: Bytes, n: nat)
    requires n <= |b|
    ensures a + b[..n] <= a + b && (n < |b| ==> a + b[..n] < a + b) && (n == |b| ==> a + b[..n] == a + b)
  {
  }

  lemma Associate(a: Bytes, b: Bytes, c: Bytes)
    ensures a + b + c == a + (b + c)
  {
  }

  /** The first i reads matched, cur was read next, and rest is still to come. */
  ghost predicate GroupAt(input: seq<Read>, keys: Bytes, i: nat, cur: Read, rest: seq<Read>)
  {
    && i <= |input| && i <= |keys|
    && (forall k :: 0 <= k < i ==> input[k].data == [keys[k]])
    && if i < |input| then input[i] == cur && rest == input[i + 1..] else cur == Read([], EOF) && rest == []
  }

  /** What reading a group leaves: whether it completed the keys, its last error, the reads to come. */
  ghost predicate GroupRead(input: seq<Read>, keys: Bytes, detach: bool, er: ReadError, rest: seq<Read>)
  {
    var m := Matched(input, keys);
    && (detach <==> m == |keys|)
    && (!detach ==> er == ErrorAt(input, m) && rest == if m < |input| then input[m + 1..] else [])
  }

  lemma GroupEnds(input: seq<Read>, keys: Bytes, i: nat, cur: Read, rest: seq<Read>)
    requires GroupAt(input, keys, i, cur, rest) && i < |keys|
    ensures cur.data != [keys[i]] ==> GroupRead(input, keys, false, cur.err, rest)
    ensures cur.data == [keys[i]] && i + 1 == |keys| ==> GroupRead(input, keys, true, cur.err, rest)
  {
    MatchedFrom(input, keys, i);
    if cur.data == [keys[i]] && i + 1 == |keys| {
      MatchedFrom(input, keys, i + 1);
    }
  }

  lemma GroupDecides(input: seq<Read>, keys: Bytes, detach: bool, er: ReadError, rest: seq<Read>)
    requires input != [] && input[0].data != [] && GroupRead(input, keys, detach, er, rest)
    ensures EndOf(input, keys) == if detach then Ending(Detached, []) else match er
              case EOF => Ending(Finished, rest)
              case Broken => Ending(ReadFailed, rest)
              case NoError => EndOf(rest, keys)
    ensures !detach ==> |rest| < |input|
  {
  }

  lemma GroupNext(input: seq<Read>, keys: Bytes, i: nat, cur: Read, rest: seq<Read>)
    requires GroupAt(input, keys, i, cur, rest) && i < |keys| && cur.data == [keys[i]]
    ensures if rest == [] then GroupAt(input, keys, i + 1, Read([], EOF), [])
            else GroupAt(input, keys, i + 1, rest[0], rest[1..])
  {
  }

  /**
   Reads on while single bytes match the keys, after a first read whose nr0
   bytes are in the buffer.  `group` is everything read in the group; it is
   exactly the keys when they are complete.
   */
  method ReadGroup(src: Source, buf: array<Byte>, keys: Bytes, nr0: nat, er0: ReadError)
    returns (detach: bool, group: Bytes, er: ReadError, ghost more: Bytes)
    requires keys != [] && 0 < nr0 <= buf.Length
    requires forall r :: r in src.input ==> |r.data| <= buf.Length
    modifies src, buf
    ensures GroupRead([Read(old(buf[..nr0]), er0)] + old(src.input), keys, detach, er, src.input)
    ensures detach ==> group == keys && src.closed
    ensures forall r :: r in src.input ==> |r.data| <= buf.Length
    ensures group == old(buf[..nr0]) + more && src.consumed == old(src.consumed) + more
    ensures src.Total() == old(src.Total())
  {
    ghost var first := buf[..nr0];
    ghost var input := [Read(first, er0)] + src.input;
    var nr: nat, i := nr0, 0;
    ghost var cur := first;
    er := er0;
    group, more := [], [];
    while true
      invariant 0 <= i < |keys| && nr <= buf.Length && cur == buf[..nr] && group == keys[..i]
      invariant GroupAt(input, keys, i, Read(cur, er), src.input)
      invariant group + cur == first + more && src.consumed == old(src.consumed) + more
      invariant src.Total() == old(src.Total())
      invariant forall r :: r in src.input ==> |r.data| <= buf.Length
      decreases |keys| - i
    {
      GroupEnds(input, keys, i, Read(cur, er), src.input);
      group := group + buf[..nr];
      if nr != 1 || buf[0] != keys[i] {
        detach := false;
        return;
      }
      assert cur == [keys[i]];
      TakeNext(keys, i);
      if i == |keys| - 1 {
        src.Close();
        detach := true;
        return;
      }
      GroupNext(input, keys, i, Read(cur, er), src.input);
      nr, er := src.ReadInto(buf);
      cur := buf[..nr];
      Associate(first, more, cur);
      Associate(old(src.consumed), more, cur);
      more := more + cur;
      i := i + 1;
    }
  }

  /**
   Copies until the input ends, a read or a write fails, or the keys are typed.
   Nothing read is lost or repeated: without a failed write everything read has
   been stored, and on detaching everything but the keys at the very end has.
   Everything that was not read is still to come.  With writes that succeed, the
   copy ends as its input says.
   */
  method Copy(dst: Sink, src: Source, given: Bytes) returns (count: nat, outcome: Outcome)
    requires src.consumed == [] && dst.written == [] && !dst.failed && !dst.cutShort
    requires forall r :: r in src.input ==> |r.data| <= BUFFER_SIZE
    modifies src, dst
    ensures Conserves(src.consumed, dst.written, DetachKeys(given), outcome)
    ensures count == if outcome.Detached? then 0 else |dst.written|
    ensures src.consumed + AllData(src.input) == AllData(old(src.input))
    ensures outcome.WriteFailed? <==> dst.failed
    ensures outcome.ShortWrite? <==> dst.cutShort && !dst.failed
    ensures !dst.failed && !dst.cutShort ==>
              var end := EndOf(old(src.input), DetachKeys(given));
              outcome == end.outcome && (outcome.Detached? || src.input == end.left)
    ensures old(dst.results) == [] ==> !dst.failed && !dst.cutShort
    ensures outcome.Detached? ==> src.closed
  {
    var keys := DetachKeys(given);
    var buf := new Byte[BUFFER_SIZE];
    count := 0;
    assert [] + AllData(src.input) == AllData(src.input);
    while true
      invariant src.consumed == dst.written && count == |dst.written| && !dst.failed && !dst.cutShort
      invariant forall r :: r in src.input ==> |r.data| <= BUFFER_SIZE
      invariant old(dst.results) == [] ==> dst.results == []
      invariant EndOf(old(src.input), keys) == EndOf(src.input, keys)
      invariant src.Total() == AllData(old(src.input))
      decreases |src.input|
    {
      ghost var input := src.input;
      var nr, er := src.ReadInto(buf);
      if nr > 0 {
        ghost var first := Read(buf[..nr], er);
        assert input == [first] + src.input;
        var detach, group;
        ghost var more;
        detach, group, er, more := ReadGroup(src, buf, keys, nr, er);
        GroupDecides(input, keys, detach, er, src.input);
        Associate(dst.written, first.data, more);
        assert src.consumed == dst.written + group;
        if detach {
          return 0, Detached;
        }
        ghost var before := dst.written;
        var nw, fails := dst.Write(group);
        StoresPart(before, group, nw);
        count := count + nw;
        if fails {
          return count, WriteFailed;
        }
        if nw != |group| {
          return count, ShortWrite;
        }
      }
      if er == EOF {
        return count, Finished;
      }
      if er != NoError {
        return count, ReadFailed;
      }
    }
  }
}
