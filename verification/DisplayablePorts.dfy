/**
 The port column of the container listing: ports of one address and protocol
 are collected into ranges, remapped ports are listed one by one.
 */
module DisplayablePorts {
  datatype Port = Port(ip: string, privatePort: int, publicPort: int, proto: string)

  // ---- the order ports are sorted in ----

  predicate LexLess(a: string, b: string)
  {
    b != [] && (a == [] || a[0] < b[0] || (a[0] == b[0] && LexLess(a[1..], b[1..])))
  }

  /** The order is that of a dictionary: a proper prefix, or smaller at the first difference. */
  lemma {:induction false} LexIsDictionary(a: string, b: string)
    ensures LexLess(a, b) <==>
            a < b || exists i :: 0 <= i < |a| && i < |b| && a[i] < b[i] && forall j :: 0 <= j < i ==> a[j] == b[j]
  {
    if a != [] && b != [] && a[0] == b[0] {
      var c, d := a[1..], b[1..];
      LexIsDictionary(c, d);
      if i :| 0 <= i < |c| && i < |d| && c[i] < d[i] && forall j :: 0 <= j < i ==> c[j] == d[j] {
        assert a[i + 1] < b[i + 1] && forall j :: 0 < j < i + 1 ==> a[j] == c[j - 1] && b[j] == d[j - 1];
      }
      if i :| 0 <= i < |a| && i < |b| && a[i] < b[i] && forall j :: 0 <= j < i ==> a[j] == b[j] {
        assert c[i - 1] < d[i - 1];
        forall j | 0 <= j < i - 1 ensures c[j] == d[j] {
          assert a[j + 1] == b[j + 1];
        }
      }
    }
  }

  predicate Less(p: Port, q: Port)
  {
    if p.privatePort != q.privatePort then p.privatePort < q.privatePort
    else if p.ip != q.ip then LexLess(p.ip, q.ip)
    else if p.publicPort != q.publicPort then p.publicPort < q.publicPort
    else LexLess(p.proto, q.proto)
  }

  lemma {:induction false} LexTotal(a: string, b: string)
    ensures LexLess(a, b) || LexLess(b, a) || a == b
    ensures !(LexLess(a, b) && LexLess(b, a)) && (a == b ==> !LexLess(a, b))
  {
    if a != [] && b != [] && a[0] == b[0] {
      LexTotal(a[1..], b[1..]);
      if a[1..] == b[1..] {
        assert a == [a[0]] + a[1..] == b;
      }
    }
  }

  lemma {:induction false} LexTransitive(a: string, b: string, c: string)
    requires LexLess(a, b) && LexLess(b, c)
    ensures LexLess(a, c)
  {
    if a != [] && a[0] == b[0] == c[0] {
      LexTransitive(a[1..], b[1..], c[1..]);
    }
  }

  /** Two different ports are always ordered one way and not the other. */
  lemma LessTotal(p: Port, q: Port)
    ensures p == q || Less(p, q) || Less(q, p)
    ensures !(Less(p, q) && Less(q, p)) && !Less(p, p)
  {
    LexTotal(p.ip, q.ip);
    LexTotal(p.proto, q.proto);
    LexTotal(p.proto, p.proto);
  }

  lemma LessTransitive(p: Port, q: Port, r: Port)
    requires Less(p, q) && Less(q, r)
    ensures Less(p, r)
  {
    LexTotal(p.ip, q.ip);
    LexTotal(q.ip, r.ip);
    LexTotal(p.ip, r.ip);
    if p.ip != q.ip && q.ip != r.ip && LexLess(p.ip, q.ip) && LexLess(q.ip, r.ip) {
      LexTransitive(p.ip, q.ip, r.ip);
    }
    if LexLess(p.proto, q.proto) && LexLess(q.proto, r.proto) {
      LexTransitive(p.proto, q.proto, r.proto);
    }
  }

  ghost predicate Sorted(ports: seq<Port>)
  {
    forall i, j :: 0 <= i < j < |ports| ==> !Less(ports[j], ports[i])
  }

  function Insert(p: Port, ports: seq<Port>): seq<Port>
  {
    if ports == [] || Less(p, ports[0]) then [p] + ports
    else [ports[0]] + Insert(p, ports[1..])
  }

  /** What sorting gives; which of the sorting algorithms is used does not matter. */
  function Sort(ports: seq<Port>): seq<Port>
  {
    if ports == [] then [] else Insert(ports[0], Sort(ports[1..]))
  }

  lemma {:induction false} InsertSorted(p: Port, ports: seq<Port>)
    requires Sorted(ports)
    ensures Sorted(Insert(p, ports)) && multiset(Insert(p, ports)) == multiset(ports) + multiset{p}
  {
    if ports == [] {
    } else if Less(p, ports[0]) {
      forall j | 0 <= j < |ports| ensures !Less(ports[j], p) {
        LessTotal(ports[j], ports[0]);
        assert !Less(ports[j], ports[0]);
        if Less(ports[j], p) {
          LessTransitive(ports[j], p, ports[0]);
        }
      }
    } else {
      InsertSorted(p, ports[1..]);
      var rest := Insert(p, ports[1..]);
      assert ports == [ports[0]] + ports[1..];
      forall j | 0 <= j < |rest| ensures !Less(rest[j], ports[0]) {
        assert rest[j] in multiset(rest);
        if rest[j] != p {
          assert rest[j] in ports[1..];
        }
      }
    }
  }

  lemma {:induction false} SortSorts(ports: seq<Port>)
    ensures Sorted(Sort(ports)) && multiset(Sort(ports)) == multiset(ports)
  {
    if ports != [] {
      SortSorts(ports[1..]);
      InsertSorted(ports[0], Sort(ports[1..]));
      assert ports == [ports[0]] + ports[1..];
    }
  }

  lemma TailMultiset(a: seq<Port>)
    requires a != []
    ensures multiset(a[1..]) == multiset(a) - multiset{a[0]}
  {
    assert a == [a[0]] + a[1..];
  }

  /** The first port of a sorted list is not larger than any of its ports. */
  lemma SameHead(a: seq<Port>, b: seq<Port>)
    requires Sorted(a) && Sorted(b) && multiset(a) == multiset(b) && a != []
    ensures b != [] && a[0] == b[0]
  {
    assert a[0] in multiset(b);
    assert b[0] in multiset(a);
    var i :| 0 <= i < |b| && b[i] == a[0];
    var j :| 0 <= j < |a| && a[j] == b[0];
    LessTotal(a[0], b[0]);
    assert i == 0 || !Less(a[0], b[0]);
    assert j == 0 || !Less(b[0], a[0]);
  }

  /** Ports have one sorted order, so the display does not depend on the order they come in. */
  lemma {:induction false} SortedUnique(a: seq<Port>, b: seq<Port>)
    requires Sorted(a) && Sorted(b) && multiset(a) == multiset(b)
    ensures a == b
  {
    if a == [] {
      assert |b| == |multiset(b)| == 0;
    } else {
      SameHead(a, b);
      TailMultiset(a);
      TailMultiset(b);
      SortedUnique(a[1..], b[1..]);
      assert a == [a[0]] + a[1..] && b == [b[0]] + b[1..];
    }
  }

  /** What sorted ports look like: by private port, then address, then public port, then protocol. */
  lemma SortedByFields(ports: seq<Port>, i: nat, j: nat)
    requires Sorted(ports) && i < j < |ports|
    ensures var p, q := ports[i], ports[j];
            && p.privatePort <= q.privatePort
            && (p.privatePort == q.privatePort ==> p.ip == q.ip || LexLess(p.ip, q.ip))
            && (p.privatePort == q.privatePort && p.ip == q.ip ==> p.publicPort <= q.publicPort)
            && (p.privatePort == q.privatePort && p.ip == q.ip && p.publicPort == q.publicPort ==>
                  p.proto == q.proto || LexLess(p.proto, q.proto))
  {
    LessTotal(ports[i], ports[j]);
    LexTotal(ports[i].ip, ports[j].ip);
    LexTotal(ports[i].proto, ports[j].proto);
  }

  // ---- ranges ----

  /** What ports are collected under, written as one text. */
  datatype Key = Key(text: string)

  datatype Range = Range(key: Key, first: int, last: int)

  function Expand(first: int, last: int): seq<int>
    requires first <= last
  {
    seq(last - first + 1, i => first + i)
  }

  ghost predicate Proper(rs: seq<Range>)
  {
    forall i :: 0 <= i < |rs| ==> rs[i].first <= rs[i].last
  }

  function ExpandAll(rs: seq<Range>): seq<int>
    requires Proper(rs)
  {
    if rs == [] then []
    else ExpandAll(rs[..|rs| - 1]) + Expand(rs[|rs| - 1].first, rs[|rs| - 1].last)
  }

  function RangesOf(rs: seq<Range>, key: Key): (r: seq<Range>)
    ensures forall x :: x in r ==> x in rs && x.key == key
  {
    if rs == [] then []
    else
      var last := |rs| - 1;
      if rs[last].key == key then RangesOf(rs[..last], key) + [rs[last]] else RangesOf(rs[..last], key)
  }

  /** A port listed on its own because its public port differs. */
  predicate Remapped(p: Port)
  {
    p.ip != "" && p.publicPort != p.privatePort
  }

  /** The key ports are collected under: the protocol, with the address if there is one. */
  function KeyOf(p: Port): Key
  {
    Key(if p.ip == "" then p.proto else p.ip + "/" + p.proto)
  }

  /** The ports under a key, in order. */
  function PortsOf(ports: seq<Port>, key: Key): seq<int>
  {
    if ports == [] then []
    else
      var last := ports[|ports| - 1];
      var rest := PortsOf(ports[..|ports| - 1], key);
      if !Remapped(last) && KeyOf(last) == key then rest + [last.privatePort] else rest
  }

  function RemappedOf(ports: seq<Port>): seq<Port>
  {
    if ports == [] then []
    else
      var last := ports[|ports| - 1];
      var rest := RemappedOf(ports[..|ports| - 1]);
      if Remapped(last) then rest + [last] else rest
  }

  /** The keys ports are collected under, in the order they first occur. */
  function FirstSeen(ports: seq<Port>): seq<Key>
  {
    if ports == [] then []
    else
      var last, rest := ports[|ports| - 1], FirstSeen(ports[..|ports| - 1]);
      if Remapped(last) || KeyOf(last) in rest then rest else rest + [KeyOf(last)]
  }

  /**
   Where every port goes: one that is published on a different port is listed by
   itself; any other is collected under its address and protocol.
   */
  lemma {:induction false} PortsGoTo(ports: seq<Port>, k: Key, x: int, p: Port)
    ensures p in RemappedOf(ports) <==> p in ports && p.ip != "" && p.publicPort != p.privatePort
    ensures x in PortsOf(ports, k) <==>
            exists q :: && q in ports && (q.ip == "" || q.publicPort == q.privatePort) && q.privatePort == x
                        && k.text == if q.ip == "" then q.proto else q.ip + "/" + q.proto
  {
    if ports != [] {
      var n := |ports| - 1;
      PortsGoTo(ports[..n], k, x, p);
      assert ports == ports[..n] + [ports[n]];
    }
  }

  /** No range continues where the one before it stops. */
  ghost predicate Broken(rs: seq<Range>)
  {
    forall i :: 0 < i < |rs| ==> rs[i].first != rs[i - 1].last + 1
  }

  /** There is a gap between each range and the next. */
  ghost predicate Separated(rs: seq<Range>)
  {
    forall i :: 0 < i < |rs| ==> rs[i - 1].last + 1 < rs[i].first
  }

  ghost predicate NonDecreasing(xs: seq<int>)
  {
    forall i, j :: 0 <= i < j < |xs| ==> xs[i] <= xs[j]
  }

  ghost predicate Distinct(xs: seq<int>)
  {
    forall i, j :: 0 <= i < j < |xs| ==> xs[i] != xs[j]
  }

  /** In sorted order the ports under a key are sorted too. */
  lemma {:induction false} PortsOfSorted(ports: seq<Port>, key: Key)
    requires Sorted(ports)
    ensures NonDecreasing(PortsOf(ports, key))
    ensures ports != [] ==> forall x :: x in PortsOf(ports, key) ==> x <= ports[|ports| - 1].privatePort
  {
    if ports != [] {
      var n := |ports| - 1;
      PortsOfSorted(ports[..n], key);
      var rest := PortsOf(ports[..n], key);
      assert n > 0 ==> !Less(ports[n], ports[n - 1]) && ports[..n][n - 1] == ports[n - 1];
      assert forall i :: 0 <= i < |rest| ==> rest[i] in rest;
    }
  }

  /** The ranges of one key make up its ports, and none continues another. */
  ghost predicate Represents(rs: seq<Range>, xs: seq<int>)
  {
    Proper(rs) && Broken(rs) && ExpandAll(rs) == xs
  }

  lemma {:induction false} ExpandAllEnds(rs: seq<Range>)
    requires Proper(rs) && rs != []
    ensures ExpandAll(rs) != [] && ExpandAll(rs)[|ExpandAll(rs)| - 1] == rs[|rs| - 1].last
    ensures rs[|rs| - 1].first in ExpandAll(rs)
  {
    var n := |rs| - 1;
    var rest, mine := ExpandAll(rs[..n]), Expand(rs[n].first, rs[n].last);
    assert mine[0] == rs[n].first && mine[|mine| - 1] == rs[n].last;
    assert ExpandAll(rs)[|rest|] == mine[0];
  }

  /**
   For sorted ports: there is a gap between all ranges of a key, so that no two
   of them overlap or could be joined, exactly when its ports are distinct.
   */
  lemma {:induction false} MaximalWhenDistinct(rs: seq<Range>, xs: seq<int>)
    requires Represents(rs, xs) && NonDecreasing(xs)
    ensures Separated(rs) <==> Distinct(xs)
  {
    if rs != [] {
      var n := |rs| - 1;
      var rest := ExpandAll(rs[..n]);
      RepresentsInit(rs, xs);
      MaximalWhenDistinct(rs[..n], rest);
      SeparatedSnoc(rs);
      if n > 0 {
        ExpandAllEnds(rs[..n]);
        LastPair(rest, Expand(rs[n].first, rs[n].last), rs[n - 1].last, rs[n].first);
      }
    }
  }

  lemma RepresentsInit(rs: seq<Range>, xs: seq<int>)
    requires Represents(rs, xs) && NonDecreasing(xs) && rs != []
    ensures var n := |rs| - 1;
            var rest := ExpandAll(rs[..n]);
            Represents(rs[..n], rest) && NonDecreasing(rest) && xs == rest + Expand(rs[n].first, rs[n].last)
  {
    var n := |rs| - 1;
    var rest := ExpandAll(rs[..n]);
    assert forall i :: 0 <= i < |rest| ==> rest[i] == xs[i];
    forall i | 0 < i < n ensures rs[..n][i].first != rs[..n][i - 1].last + 1 {
      assert rs[i].first != rs[i - 1].last + 1;
    }
  }

  lemma SeparatedSnoc(rs: seq<Range>)
    requires rs != []
    ensures Separated(rs) <==> Separated(rs[..|rs| - 1]) && (|rs| > 1 ==> rs[|rs| - 2].last + 1 < rs[|rs| - 1].first)
  {
  }

  /** Two sorted stretches, the second consecutive, are distinct together when they do not touch. */
  lemma LastPair(rest: seq<int>, mine: seq<int>, last: int, first: int)
    requires rest != [] && mine != [] && rest[|rest| - 1] == last && mine[0] == first
    requires NonDecreasing(rest + mine) && first != last + 1
    requires forall i, j :: 0 <= i < j < |mine| ==> mine[i] < mine[j]
    ensures Distinct(rest + mine) <==> Distinct(rest) && last + 1 < first
  {
    var xs := rest + mine;
    assert xs[|rest| - 1] == last && xs[|rest|] == first;
    if Distinct(xs) {
      assert last != first;
      forall i, j | 0 <= i < j < |rest| ensures rest[i] != rest[j] {
        assert xs[i] != xs[j];
      }
    }
    if Distinct(rest) && last + 1 < first {
      forall i, j | 0 <= i < j < |xs| ensures xs[i] != xs[j] {
        if j < |rest| {
          assert xs[i] == rest[i] && xs[j] == rest[j];
        } else if i >= |rest| {
          assert xs[i] == mine[i - |rest|] && xs[j] == mine[j - |rest|];
        } else {
          assert i == |rest| - 1 || xs[i] <= xs[|rest| - 1];
          assert j == |rest| || xs[|rest|] <= xs[j];
        }
      }
    }
  }

  // ---- the collection ----

  datatype Group = Group(first: int, last: int)

  /** What the loop has collected from the ports so far. */
  ghost predicate Collected(ports: seq<Port>, groups: map<Key, Group>, keys: seq<Key>,
                            result: seq<Range>, mappings: seq<Port>)
  {
    && Proper(result)
    && mappings == RemappedOf(ports)
    && keys == FirstSeen(ports)
    && (forall i, j :: 0 <= i < j < |keys| ==> keys[i] != keys[j])
    && (forall k :: k in keys <==> k in groups)
    && forall k :: CollectedKey(ports, groups, result, k)
  }

  /** The finished ranges of a key and its open group make up its ports. */
  ghost predicate CollectedKey(ports: seq<Port>, groups: map<Key, Group>, result: seq<Range>, k: Key)
  {
    if k in groups then Represents(RangesOf(result, k) + [Range(k, groups[k].first, groups[k].last)], PortsOf(ports, k))
    else RangesOf(result, k) == [] && PortsOf(ports, k) == []
  }

  lemma PortsOfSnoc(ports: seq<Port>, p: Port, k: Key)
    ensures PortsOf(ports + [p], k) ==
            if !Remapped(p) && KeyOf(p) == k then PortsOf(ports, k) + [p.privatePort] else PortsOf(ports, k)
    ensures RemappedOf(ports + [p]) == if Remapped(p) then RemappedOf(ports) + [p] else RemappedOf(ports)
    ensures FirstSeen(ports + [p]) ==
            if Remapped(p) || KeyOf(p) in FirstSeen(ports) then FirstSeen(ports) else FirstSeen(ports) + [KeyOf(p)]
  {
    assert (ports + [p])[..|ports|] == ports;
  }

  lemma RangesOfSnoc(rs: seq<Range>, r: Range, k: Key)
    ensures RangesOf(rs + [r], k) == if r.key == k then RangesOf(rs, k) + [r] else RangesOf(rs, k)
  {
  }

  lemma RepresentsOne(k: Key, c: int)
    ensures Represents([Range(k, c, c)], [c])
  {
  }

  lemma RepresentsExtend(rs: seq<Range>, k: Key, first: int, last: int, xs: seq<int>)
    requires Represents(rs + [Range(k, first, last)], xs)
    ensures Represents(rs + [Range(k, first, last + 1)], xs + [last + 1])
  {
  }

  lemma RepresentsBreak(rs: seq<Range>, k: Key, c: int, xs: seq<int>)
    requires Represents(rs, xs) && rs != [] && c != rs[|rs| - 1].last + 1
    ensures Represents(rs + [Range(k, c, c)], xs + [c])
  {
  }

  /** A port under key k leaves what is collected under other keys alone. */
  lemma OtherKey(ports: seq<Port>, p: Port, groups: map<Key, Group>, g: Group, result: seq<Range>, more: seq<Range>, x: Key)
    requires !Remapped(p) && x != KeyOf(p) && CollectedKey(ports, groups, result, x)
    requires more == result || (|more| == |result| + 1 && more[..|result|] == result && more[|result|].key == KeyOf(p))
    ensures CollectedKey(ports + [p], groups[KeyOf(p) := g], more, x)
  {
  }

  /** A port under a new key opens a group. */
  lemma CollectNew(ports: seq<Port>, p: Port, groups: map<Key, Group>, keys: seq<Key>,
                   result: seq<Range>, mappings: seq<Port>)
    requires Collected(ports, groups, keys, result, mappings) && !Remapped(p) && KeyOf(p) !in groups
    ensures var c := p.privatePort;
            Collected(ports + [p], groups[KeyOf(p) := Group(c, c)], keys + [KeyOf(p)], result, mappings)
  {
    var k, c := KeyOf(p), p.privatePort;
    var done, renewed := ports + [p], groups[k := Group(c, c)];
    PortsOfSnoc(ports, p, k);
    forall x ensures CollectedKey(done, renewed, result, x) {
      assert CollectedKey(ports, groups, result, x);
      if x == k {
        RepresentsOne(k, c);
        assert RangesOf(result, k) + [Range(k, c, c)] == [Range(k, c, c)];
        assert PortsOf(ports, k) + [c] == [c];
      } else {
        OtherKey(ports, p, groups, Group(c, c), result, result, x);
      }
    }
  }

  /** The next port extends the group. */
  lemma CollectExtend(ports: seq<Port>, p: Port, groups: map<Key, Group>, keys: seq<Key>,
                      result: seq<Range>, mappings: seq<Port>)
    requires Collected(ports, groups, keys, result, mappings) && !Remapped(p)
    requires KeyOf(p) in groups && p.privatePort == groups[KeyOf(p)].last + 1
    ensures var k := KeyOf(p);
            Collected(ports + [p], groups[k := groups[k].(last := p.privatePort)], keys, result, mappings)
  {
    var k, c := KeyOf(p), p.privatePort;
    var g := groups[k].(last := c);
    PortsOfSnoc(ports, p, k);
    var done, extended := ports + [p], groups[k := g];
    forall x ensures CollectedKey(done, extended, result, x) {
      assert CollectedKey(ports, groups, result, x);
      if x == k {
        ExtendKey(ports, p, groups, result);
      } else {
        OtherKey(ports, p, groups, g, result, result, x);
      }
    }
  }

  lemma ExtendKey(ports: seq<Port>, p: Port, groups: map<Key, Group>, result: seq<Range>)
    requires !Remapped(p) && KeyOf(p) in groups && p.privatePort == groups[KeyOf(p)].last + 1
    requires CollectedKey(ports, groups, result, KeyOf(p))
    ensures var k := KeyOf(p);
            CollectedKey(ports + [p], groups[k := groups[k].(last := p.privatePort)], result, k)
  {
    var k := KeyOf(p);
    PortsOfSnoc(ports, p, k);
    RepresentsExtend(RangesOf(result, k), k, groups[k].first, groups[k].last, PortsOf(ports, k));
  }

  /** Any other port closes the group and opens another. */
  lemma CollectBreak(ports: seq<Port>, p: Port, groups: map<Key, Group>, keys: seq<Key>,
                     result: seq<Range>, mappings: seq<Port>)
    requires Collected(ports, groups, keys, result, mappings) && !Remapped(p)
    requires KeyOf(p) in groups && p.privatePort != groups[KeyOf(p)].last + 1
    ensures var k, c := KeyOf(p), p.privatePort;
            Collected(ports + [p], groups[k := Group(c, c)], keys,
                      result + [Range(k, groups[k].first, groups[k].last)], mappings)
  {
    var k, c := KeyOf(p), p.privatePort;
    var open := Range(k, groups[k].first, groups[k].last);
    var done, renewed, more := ports + [p], groups[k := Group(c, c)], result + [open];
    PortsOfSnoc(ports, p, k);
    assert CollectedKey(ports, groups, result, k);
    OpenIsProper(ports, groups, result, k);
    forall x ensures CollectedKey(done, renewed, more, x) {
      assert CollectedKey(ports, groups, result, x);
      if x == k {
        BreakKey(ports, p, groups, result);
      } else {
        OtherKey(ports, p, groups, Group(c, c), result, more, x);
      }
    }
  }

  lemma BreakKey(ports: seq<Port>, p: Port, groups: map<Key, Group>, result: seq<Range>)
    requires !Remapped(p) && KeyOf(p) in groups && p.privatePort != groups[KeyOf(p)].last + 1
    requires CollectedKey(ports, groups, result, KeyOf(p))
    ensures var k, c := KeyOf(p), p.privatePort;
            CollectedKey(ports + [p], groups[k := Group(c, c)], result + [Range(k, groups[k].first, groups[k].last)], k)
  {
    var k, c := KeyOf(p), p.privatePort;
    var open := Range(k, groups[k].first, groups[k].last);
    PortsOfSnoc(ports, p, k);
    RangesOfSnoc(result, open, k);
    RepresentsBreak(RangesOf(result, k) + [open], k, c, PortsOf(ports, k));
  }

  lemma OpenIsProper(ports: seq<Port>, groups: map<Key, Group>, result: seq<Range>, k: Key)
    requires k in groups && CollectedKey(ports, groups, result, k)
    ensures groups[k].first <= groups[k].last
  {
  }

  /**
   Collects sorted ports into ranges.  Under every key the ranges listed make up
   its ports in order, and no range continues another; remapped ports are listed
   once each.
   */
  method Collect(ports: seq<Port>) returns (ranges: seq<Range>, mappings: seq<Port>)
    ensures forall k :: Represents(RangesOf(ranges, k), PortsOf(ports, k))
    ensures mappings == RemappedOf(ports)
    ensures LastPerKey(ranges, FirstSeen(ports))
  {
    var groups: map<Key, Group> := map[];
    var keys: seq<Key> := [];
    ranges, mappings := [], [];
    for i := 0 to |ports|
      invariant Collected(ports[..i], groups, keys, ranges, mappings)
    {
      var p := ports[i];
      assert ports[..i + 1] == ports[..i] + [p];
      if Remapped(p) {
        CollectRemapped(ports[..i], p, groups, keys, ranges, mappings);
        mappings := mappings + [p];
        continue;
      }
      var k, c := KeyOf(p), p.privatePort;
      if k !in groups {
        CollectNew(ports[..i], p, groups, keys, ranges, mappings);
        groups, keys := groups[k := Group(c, c)], keys + [k];
      } else if c == groups[k].last + 1 {
        CollectExtend(ports[..i], p, groups, keys, ranges, mappings);
        groups := groups[k := groups[k].(last := c)];
      } else {
        CollectBreak(ports[..i], p, groups, keys, ranges, mappings);
        ranges := ranges + [Range(k, groups[k].first, groups[k].last)];
        groups := groups[k := Group(c, c)];
      }
    }
    assert ports[..|ports|] == ports;
    forall k ensures Represents(WithOpen(ranges, groups, keys, k), PortsOf(ports, k)) {
      assert CollectedKey(ports, groups, ranges, k);
    }
    ranges := Flush(groups, keys, ranges);
  }

  /** Closes the groups left open, in the order of their keys. */
  method Flush(groups: map<Key, Group>, keys: seq<Key>, result: seq<Range>) returns (ranges: seq<Range>)
    requires forall i, j :: 0 <= i < j < |keys| ==> keys[i] != keys[j]
    requires forall k :: k in keys <==> k in groups
    ensures forall k :: RangesOf(ranges, k) == WithOpen(result, groups, keys, k)
    ensures LastPerKey(ranges, keys)
  {
    ranges := result;
    for j := 0 to |keys|
      invariant forall k :: RangesOf(ranges, k) == WithOpen(result, groups, keys[..j], k)
      invariant LastPerKey(ranges, keys[..j])
    {
      var r := Range(keys[j], groups[keys[j]].first, groups[keys[j]].last);
      forall k ensures RangesOf(ranges + [r], k) == WithOpen(result, groups, keys[..j + 1], k) {
        RangesOfSnoc(ranges, r, k);
        assert keys[j] !in keys[..j];
        assert k in keys[..j + 1] <==> k in keys[..j] || k == keys[j];
      }
      LastPerKeySnoc(ranges, keys, j, r);
      ranges := ranges + [r];
    }
    assert keys[..|keys|] == keys;
  }

  lemma LastPerKeySnoc(ranges: seq<Range>, keys: seq<Key>, j: nat, r: Range)
    requires j < |keys| && LastPerKey(ranges, keys[..j]) && r.key == keys[j]
    ensures LastPerKey(ranges + [r], keys[..j + 1])
  {
    var n, more, listed := |ranges| - j, ranges + [r], keys[..j + 1];
    forall i | 0 <= i < j + 1 ensures more[n + i].key == listed[i] {
      if i < j {
        assert ranges[n + i].key == keys[..j][i];
      }
    }
  }

  /** The list ends with one range for each key, in order. */
  ghost predicate LastPerKey(ranges: seq<Range>, keys: seq<Key>)
  {
    |keys| <= |ranges| && forall i :: 0 <= i < |keys| ==> ranges[|ranges| - |keys| + i].key == keys[i]
  }

  lemma CollectRemapped(ports: seq<Port>, p: Port, groups: map<Key, Group>, keys: seq<Key>,
                        result: seq<Range>, mappings: seq<Port>)
    requires Collected(ports, groups, keys, result, mappings) && Remapped(p)
    ensures Collected(ports + [p], groups, keys, result, mappings + [p])
  {
    var done := ports + [p];
    forall x ensures CollectedKey(done, groups, result, x) {
      PortsOfSnoc(ports, p, x);
      assert CollectedKey(ports, groups, result, x);
    }
    PortsOfSnoc(ports, p, Key(""));
  }

  /** The finished ranges of a key, with its open group if that is listed. */
  ghost function WithOpen(result: seq<Range>, groups: map<Key, Group>, listed: seq<Key>, k: Key): seq<Range>
  {
    if k in listed && k in groups then RangesOf(result, k) + [Range(k, groups[k].first, groups[k].last)]
    else RangesOf(result, k)
  }

  // ---- the whole display ----

  lemma {:induction false} PortsOfConcat(a: seq<Port>, b: seq<Port>, k: Key)
    ensures PortsOf(a + b, k) == PortsOf(a, k) + PortsOf(b, k)
    decreases |b|
  {
    if b == [] {
      assert a + b == a;
    } else {
      var n := |b| - 1;
      var tail := if !Remapped(b[n]) && KeyOf(b[n]) == k then [b[n].privatePort] else [];
      PortsOfConcat(a, b[..n], k);
      assert a + b == a + b[..n] + [b[n]];
      assert PortsOf(a + b, k) == PortsOf(a + b[..n], k) + tail;
      assert PortsOf(a, k) + PortsOf(b[..n], k) + tail == PortsOf(a, k) + (PortsOf(b[..n], k) + tail);
    }
  }

  lemma {:induction false} RemappedOfConcat(a: seq<Port>, b: seq<Port>)
    ensures RemappedOf(a + b) == RemappedOf(a) + RemappedOf(b)
    decreases |b|
  {
    if b == [] {
      assert a + b == a;
    } else {
      var n := |b| - 1;
      var tail := if Remapped(b[n]) then [b[n]] else [];
      RemappedOfConcat(a, b[..n]);
      assert a + b == a + b[..n] + [b[n]];
      assert RemappedOf(a + b) == RemappedOf(a + b[..n]) + tail;
      assert RemappedOf(a) + RemappedOf(b[..n]) + tail == RemappedOf(a) + (RemappedOf(b[..n]) + tail);
    }
  }

  function Without(b: seq<Port>, i: nat): seq<Port>
    requires i < |b|
  {
    b[..i] + b[i + 1..]
  }

  lemma WithoutCounts(b: seq<Port>, i: nat, k: Key)
    requires i < |b|
    ensures multiset(b) == multiset(Without(b, i)) + multiset{b[i]}
    ensures multiset(PortsOf(b, k)) == multiset(PortsOf(Without(b, i), k)) + multiset(PortsOf([b[i]], k))
    ensures multiset(RemappedOf(b)) == multiset(RemappedOf(Without(b, i))) + multiset(RemappedOf([b[i]]))
  {
    assert b == b[..i] + ([b[i]] + b[i + 1..]);
    PortsOfConcat(b[..i], [b[i]] + b[i + 1..], k);
    PortsOfConcat([b[i]], b[i + 1..], k);
    PortsOfConcat(b[..i], b[i + 1..], k);
    RemappedOfConcat(b[..i], [b[i]] + b[i + 1..]);
    RemappedOfConcat([b[i]], b[i + 1..]);
    RemappedOfConcat(b[..i], b[i + 1..]);
  }

  lemma IndexOf(b: seq<Port>, p: Port) returns (i: nat)
    requires p in multiset(b)
    ensures i < |b| && b[i] == p
  {
    i :| i < |b| && b[i] == p;
  }

  /** Reordering ports only reorders what is collected under each key. */
  lemma {:induction false} PermutedPorts(a: seq<Port>, b: seq<Port>, k: Key)
    requires multiset(a) == multiset(b)
    ensures multiset(PortsOf(a, k)) == multiset(PortsOf(b, k))
    ensures multiset(RemappedOf(a)) == multiset(RemappedOf(b))
    decreases |a|
  {
    if a == [] {
      assert |b| == |multiset(b)| == 0;
    } else {
      assert a[0] in multiset(a);
      var i := IndexOf(b, a[0]);
      WithoutCounts(a, 0, k);
      WithoutCounts(b, i, k);
      SameRest(multiset(Without(a, 0)), multiset(Without(b, i)), a[0]);
      PermutedPorts(Without(a, 0), Without(b, i), k);
    }
  }

  lemma SameRest(x: multiset<Port>, y: multiset<Port>, p: Port)
    requires x + multiset{p} == y + multiset{p}
    ensures x == y
  {
    assert x == x + multiset{p} - multiset{p};
    assert y == y + multiset{p} - multiset{p};
  }

  /**
   Sorts the ports in place and collects them.  Nothing is lost or invented:
   expanding the ranges listed under a key gives back its ports, and remapped
   ports are listed once each.
   */
  method Display(ports: array<Port>) returns (ranges: seq<Range>, mappings: seq<Port>)
    modifies ports
    ensures ports[..] == Sort(old(ports[..]))
    ensures forall k :: Represents(RangesOf(ranges, k), PortsOf(ports[..], k))
    ensures forall k :: multiset(PortsOf(ports[..], k)) == multiset(PortsOf(old(ports[..]), k))
    ensures multiset(mappings) == multiset(RemappedOf(old(ports[..])))
    ensures LastPerKey(ranges, FirstSeen(ports[..]))
    ensures forall k :: Separated(RangesOf(ranges, k)) <==> Distinct(PortsOf(ports[..], k))
  {
    ghost var given := ports[..];
    var sorted := Sort(ports[..]);
    SortSorts(given);
    assert |sorted| == |multiset(sorted)| == |multiset(given)| == ports.Length;
    forall i | 0 <= i < ports.Length {
      ports[i] := sorted[i];
    }
    assert ports[..] == sorted;
    ranges, mappings := Collect(sorted);
    forall k
      ensures multiset(PortsOf(sorted, k)) == multiset(PortsOf(given, k))
      ensures Separated(RangesOf(ranges, k)) <==> Distinct(PortsOf(sorted, k))
    {
      PermutedPorts(sorted, given, k);
      PortsOfSorted(sorted, k);
      MaximalWhenDistinct(RangesOf(ranges, k), PortsOf(sorted, k));
    }
    PermutedPorts(sorted, given, Key(""));
  }

  // ---- keys and their parts ----

  /** Where the first slash is, or the length. */
  function SlashAt(s: string): (i: nat)
    ensures i <= |s| && (i < |s| ==> s[i] == '/') && forall k :: 0 <= k < i ==> s[k] != '/'
  {
    if s == "" || s[0] == '/' then 0 else 1 + SlashAt(s[1..])
  }

  /** The address and protocol shown for a key: its parts around the slash. */
  function KeyParts(key: string): (string, string)
  {
    var i := SlashAt(key);
    if i == |key| then ("", key)
    else
      var rest := key[i + 1..];
      (key[..i], rest[..SlashAt(rest)])
  }

  lemma PartsHaveNoSlash(key: string)
    ensures '/' !in KeyParts(key).0 && '/' !in KeyParts(key).1
  {
    var i := SlashAt(key);
    assert forall k :: 0 <= k < i ==> key[..i][k] == key[k];
    if i < |key| {
      var rest := key[i + 1..];
      assert forall k :: 0 <= k < SlashAt(rest) ==> rest[..SlashAt(rest)][k] == rest[k];
    }
  }

  lemma KeyRecovered(p: Port)
    requires '/' !in p.ip && '/' !in p.proto
    ensures KeyParts(KeyOf(p).text) == (p.ip, p.proto)
  {
    var key := KeyOf(p).text;
    if p.ip == "" {
      assert forall i :: 0 <= i < |key| ==> key[i] in p.proto;
    } else {
      var n := |p.ip|;
      assert SlashAt(key) == n by {
        assert key[n] == '/' && forall i :: 0 <= i < n ==> key[i] == p.ip[i] && key[i] in p.ip;
      }
      assert key[..n] == p.ip && key[n + 1..] == p.proto;
      assert SlashAt(p.proto) == |p.proto| by {
        assert forall i :: 0 <= i < |p.proto| ==> p.proto[i] in p.proto;
      }
      assert p.proto[..|p.proto|] == p.proto;
    }
  }

  /** Address and protocol are recovered from the key exactly when neither contains the separator. */
  lemma KeyRoundTrip(p: Port)
    ensures KeyParts(KeyOf(p).text) == (p.ip, p.proto) <==> '/' !in p.ip && '/' !in p.proto
  {
    PartsHaveNoSlash(KeyOf(p).text);
    if '/' !in p.ip && '/' !in p.proto {
      KeyRecovered(p);
    }
  }
}
