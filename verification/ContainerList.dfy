/**
 Listing containers: a loop that filters, skips and stops as it goes, against
 the query it is meant to answer.
 */
module ContainerList {
  import opened Common

  datatype Container = Container(
    id: string, name: string, running: bool, exitCode: int, started: bool, state: string,
    labels: map<string, string>, mountPoints: set<string>, volumes: set<string>,
    imageID: string, networks: set<string>, networkIDs: set<string>)

  /** The user's options; a filter that was not given matches everything. */
  datatype Options = Options(
    all: bool, limit: int,
    nameMatches: string -> bool, idMatches: string -> bool, labelsMatch: map<string, string> -> bool,
    exitAllowed: seq<int>, statusMatches: string -> bool,
    volumes: Option<set<string>>, ancestors: Option<set<string>>, networks: Option<set<string>>)

  // ---- the query ----

  /** The filters looked at before the limit. */
  predicate PassesEarly(o: Options, c: Container)
  {
    && (c.running || o.all || o.limit > 0)
    && o.nameMatches(c.name) && o.idMatches(c.id) && o.labelsMatch(c.labels)
  }

  predicate ExitAllowed(o: Options, c: Container)
  {
    o.exitAllowed == [] || (c.exitCode in o.exitAllowed && !c.running && c.started)
  }

  /** The filters looked at after the limit. */
  predicate PassesLate(o: Options, c: Container)
  {
    && ExitAllowed(o, c)
    && o.statusMatches(c.state)
    && (o.volumes.Some? ==> exists v :: v in o.volumes.value && (v in c.mountPoints || v in c.volumes))
    && (o.ancestors.Some? ==> c.imageID in o.ancestors.value)
    && (o.networks.Some? ==> exists n :: n in o.networks.value && (n in c.networks || n in c.networkIDs))
  }

  predicate Passes(o: Options, c: Container)
  {
    PassesEarly(o, c) && PassesLate(o, c)
  }

  /** What comes after the container named by `before`; nothing if it is not there. */
  function After(list: seq<Container>, before: Option<string>): seq<Container>
  {
    if before.None? then list
    else if list == [] then []
    else if list[0].id == before.value then list[1..]
    else After(list[1..], before)
  }

  /** What comes ahead of the first container named by `since`. */
  function Ahead(list: seq<Container>, since: Option<string>): seq<Container>
  {
    if list == [] || since == Some(list[0].id) then []
    else [list[0]] + Ahead(list[1..], since)
  }

  function Filter(o: Options, list: seq<Container>): seq<Container>
  {
    if list == [] then []
    else if Passes(o, list[0]) then [list[0]] + Filter(o, list[1..])
    else Filter(o, list[1..])
  }

  function Selected(o: Options, list: seq<Container>, before: Option<string>, since: Option<string>): seq<Container>
  {
    Filter(o, Ahead(After(list, before), since))
  }

  /**
   The rendered selection, up to the limit, when n have been rendered already.
   Rendering may fail, which fails the listing, or give nothing to show.
   */
  function Rendered<T, E>(cs: seq<Container>, limit: int, n: nat, render: Container -> Result<Option<T>, E>): Result<seq<T>, E>
  {
    if cs == [] || (limit > 0 && n == limit) then Ok([])
    else
      match render(cs[0])
      case Err(e) => Err(e)
      case Ok(None) => Rendered(cs[1..], limit, n, render)
      case Ok(Some(t)) =>
        match Rendered(cs[1..], limit, n + 1, render)
        case Err(e) => Err(e)
        case Ok(ts) => Ok([t] + ts)
  }

  // ---- what the query means ----

  /** What passes: a container that runs, unless all or a number is asked for, and that meets every filter given. */
  lemma {:induction false} FilterExactly(o: Options, list: seq<Container>, c: Container)
    ensures c in Filter(o, list) <==>
            && c in list && (c.running || o.all || o.limit > 0)
            && o.nameMatches(c.name) && o.idMatches(c.id) && o.labelsMatch(c.labels) && o.statusMatches(c.state)
            && (o.exitAllowed != [] ==> c.exitCode in o.exitAllowed && !c.running && c.started)
            && (o.volumes.Some? ==> !(o.volumes.value !! c.mountPoints + c.volumes))
            && (o.ancestors.Some? ==> c.imageID in o.ancestors.value)
            && (o.networks.Some? ==> !(o.networks.value !! c.networks + c.networkIDs))
  {
    if list != [] {
      FilterExactly(o, list[1..], c);
      assert list == [list[0]] + list[1..];
    }
  }

  /** The order of the list is kept, and nothing is listed more often than it occurs. */
  lemma {:induction false} FilterConcat(o: Options, a: seq<Container>, b: seq<Container>)
    ensures Filter(o, a + b) == Filter(o, a) + Filter(o, b)
  {
    if a == [] {
      assert a + b == b;
    } else {
      FilterConcat(o, a[1..], b);
      assert (a + b)[1..] == a[1..] + b;
    }
  }

  /** The first position from lo on at which the container has this ID, or the end. */
  function FirstAt(list: seq<Container>, lo: nat, id: string): (i: nat)
    requires lo <= |list|
    ensures lo <= i <= |list| && (i < |list| ==> list[i].id == id)
    ensures forall k :: lo <= k < i ==> list[k].id != id
    decreases |list| - lo
  {
    if lo == |list| || list[lo].id == id then lo else FirstAt(list, lo + 1, id)
  }

  /** The position just after `before`, or the end if it is not in the list. */
  function Start(list: seq<Container>, before: Option<string>): (i: nat)
    ensures i <= |list|
  {
    if before.None? then 0
    else
      var at := FirstAt(list, 0, before.value);
      if at < |list| then at + 1 else at
  }

  function Stop(list: seq<Container>, lo: nat, since: Option<string>): (i: nat)
    requires lo <= |list|
    ensures lo <= i <= |list|
  {
    if since.None? then |list| else FirstAt(list, lo, since.value)
  }

  lemma {:induction false} AfterIsSuffix(list: seq<Container>, lo: nat, before: string)
    requires lo <= |list|
    ensures var at := FirstAt(list, lo, before);
            After(list[lo..], Some(before)) == list[if at < |list| then at + 1 else at..]
    decreases |list| - lo
  {
    if lo < |list| && list[lo].id != before {
      AfterIsSuffix(list, lo + 1, before);
      assert list[lo..][1..] == list[lo + 1..];
    }
  }

  lemma {:induction false} AheadIsPrefix(list: seq<Container>, lo: nat, since: Option<string>)
    requires lo <= |list|
    ensures Ahead(list[lo..], since) == list[lo..Stop(list, lo, since)]
    decreases |list| - lo
  {
    if lo < |list| && since != Some(list[lo].id) {
      AheadIsPrefix(list, lo + 1, since);
      assert list[lo..][1..] == list[lo + 1..];
      assert [list[lo]] + list[lo + 1..Stop(list, lo, since)] == list[lo..Stop(list, lo, since)];
    }
  }

  /**
   The selection is made from the part of the list strictly after `before` and
   strictly ahead of the first `since` after that.
   */
  lemma SelectedFromWindow(o: Options, list: seq<Container>, before: Option<string>, since: Option<string>)
    ensures var lo := Start(list, before);
            Selected(o, list, before, since) == Filter(o, list[lo..Stop(list, lo, since)])
  {
    assert list[0..] == list;
    if before.Some? {
      AfterIsSuffix(list, 0, before.value);
    }
    AheadIsPrefix(list, Start(list, before), since);
  }

  function FirstOf<T>(limit: int, xs: seq<T>): seq<T>
  {
    if 0 < limit < |xs| then xs[..limit] else xs
  }

  function MapAll<T>(cs: seq<Container>, f: Container -> T): (r: seq<T>)
    ensures |r| == |cs| && forall i :: 0 <= i < |cs| ==> r[i] == f(cs[i])
  {
    if cs == [] then [] else [f(cs[0])] + MapAll(cs[1..], f)
  }

  /** When rendering always succeeds the listing is the first `limit` selected containers. */
  lemma {:induction false} RenderedIsFirst<T, E>(cs: seq<Container>, limit: int, n: nat,
                                                 render: Container -> Result<Option<T>, E>, f: Container -> T)
    requires forall c :: render(c) == Ok(Some(f(c)))
    requires limit > 0 ==> n <= limit
    ensures Rendered(cs, limit, n, render) ==
            Ok(if limit > 0 && |cs| > limit - n then MapAll(cs[..limit - n], f) else MapAll(cs, f))
  {
    if cs != [] && !(limit > 0 && n == limit) {
      RenderedIsFirst(cs[1..], limit, n + 1, render, f);
      if limit > 0 && |cs| > limit - n {
        assert cs[..limit - n][1..] == cs[1..][..limit - n - 1];
      }
    }
  }

  /** What the containers render to, without those that render to nothing or fail. */
  function Shown<T, E>(cs: seq<Container>, render: Container -> Result<Option<T>, E>): seq<T>
  {
    if cs == [] then []
    else
      match render(cs[0])
      case Ok(Some(t)) => [t] + Shown(cs[1..], render)
      case _ => Shown(cs[1..], render)
  }

  /** Containers that render to nothing are passed over and do not count towards the limit. */
  lemma {:induction false} RenderedPassesOver<T, E>(cs: seq<Container>, limit: int, n: nat,
                                                    render: Container -> Result<Option<T>, E>)
    requires forall c :: c in cs ==> render(c).Ok?
    requires limit > 0 ==> n <= limit
    ensures var all := Shown(cs, render);
            Rendered(cs, limit, n, render) == Ok(if limit > 0 && |all| > limit - n then all[..limit - n] else all)
  {
    if cs != [] && !(limit > 0 && n == limit) {
      assert cs[0] in cs && forall c :: c in cs[1..] ==> c in cs;
      var shown, rest := render(cs[0]).value, Shown(cs[1..], render);
      RenderedPassesOver(cs[1..], limit, if shown.Some? then n + 1 else n, render);
      if shown.Some? && limit > 0 && |rest| > limit - n - 1 {
        assert ([shown.value] + rest)[..limit - n] == [shown.value] + rest[..limit - n - 1];
      }
    }
  }

  /** The first container that fails to render fails the listing, unless the limit is reached before it. */
  lemma {:induction false} RenderedFails<T, E>(cs: seq<Container>, limit: int, n: nat,
                                               render: Container -> Result<Option<T>, E>, k: nat)
    requires k < |cs| && render(cs[k]).Err? && forall i :: 0 <= i < k ==> render(cs[i]).Ok?
    requires limit > 0 ==> n + |Shown(cs[..k], render)| < limit
    ensures Rendered(cs, limit, n, render) == Err(render(cs[k]).error)
    decreases k
  {
    if k > 0 {
      assert cs[..k][1..] == cs[1..][..k - 1];
      RenderedFails(cs[1..], limit, if render(cs[0]).value.Some? then n + 1 else n, render, k - 1);
    }
  }

  /**
   What the listing is for: the first `limit` containers that pass the filters,
   all of them without a limit, from the part of the list strictly after
   `before` and strictly ahead of the first later `since`.
   */
  lemma ListingIsQuery<T, E>(o: Options, list: seq<Container>, before: Option<string>, since: Option<string>,
                             render: Container -> Result<Option<T>, E>, f: Container -> T)
    requires forall c :: render(c) == Ok(Some(f(c)))
    ensures var lo := Start(list, before);
            Rendered(Selected(o, list, before, since), o.limit, 0, render) ==
            Ok(MapAll(FirstOf(o.limit, Filter(o, list[lo..Stop(list, lo, since)])), f))
  {
    SelectedFromWindow(o, list, before, since);
    RenderedIsFirst(Selected(o, list, before, since), o.limit, 0, render, f);
  }

  // ---- the loop ----

  datatype Action = Include | Exclude | StopHere

  /** The decision on a container once the list is open. */
  function Decide(o: Options, since: Option<string>, idx: nat, c: Container): Action
  {
    if since == Some(c.id) then StopHere
    else if !PassesEarly(o, c) then Exclude
    else if o.limit > 0 && idx == o.limit then StopHere
    else if PassesLate(o, c) then Include
    else Exclude
  }

  /** Each decision agrees with the query on what is left of the list. */
  lemma DecideAgrees<T, E>(o: Options, list: seq<Container>, before: Option<string>, since: Option<string>, idx: nat,
                           render: Container -> Result<Option<T>, E>)
    requires list != []
    ensures before.Some? ==>
              var next := if list[0].id == before.value then None else before;
              Selected(o, list, before, since) == Selected(o, list[1..], next, since)
    ensures before.None? ==>
              var left := Selected(o, list, None, since);
              var right := Selected(o, list[1..], None, since);
              match Decide(o, since, idx, list[0])
              case StopHere => Rendered(left, o.limit, idx, render) == Ok([])
              case Exclude => Rendered(left, o.limit, idx, render) == Rendered(right, o.limit, idx, render)
              case Include => left == [list[0]] + right && !(o.limit > 0 && idx == o.limit)
  {
  }

  class ListContext {
    const options: Options
    const since: Option<string>
    var before: Option<string>
    var idx: nat

    constructor (options: Options, before: Option<string>, since: Option<string>)
      ensures this.options == options && this.before == before && this.since == since && idx == 0
    {
      this.options, this.before, this.since, idx := options, before, since, 0;
    }

    method ExitCodeAllowed(c: Container) returns (ok: bool)
      ensures ok == ExitAllowed(options, c)
    {
      if options.exitAllowed == [] {
        return true;
      }
      ok := false;
      for i := 0 to |options.exitAllowed|
        invariant ok <==> c.exitCode in options.exitAllowed[..i] && !c.running && c.started
      {
        if options.exitAllowed[i] == c.exitCode && !c.running && c.started {
          ok := true;
        }
      }
      assert options.exitAllowed[..|options.exitAllowed|] == options.exitAllowed;
    }

    /** Decides on one container; reaching `before` opens the list from the next one on. */
    method IncludeContainer(c: Container) returns (action: Action)
      modifies this`before
      ensures old(before).Some? ==> action == Exclude && before == if c.id == old(before).value then None else old(before)
      ensures old(before).None? ==> before == None && action == Decide(options, since, idx, c)
    {
      if before.Some? {
        if c.id == before.value {
          before := None;
        }
        return Exclude;
      }
      if since.Some? && c.id == since.value { return StopHere; }
      if !c.running && !options.all && options.limit <= 0 { return Exclude; }
      if !options.nameMatches(c.name) { return Exclude; }
      if !options.idMatches(c.id) { return Exclude; }
      if !options.labelsMatch(c.labels) { return Exclude; }
      if options.limit > 0 && idx == options.limit { return StopHere; }
      var exitOK := ExitCodeAllowed(c);
      if !exitOK { return Exclude; }
      if !options.statusMatches(c.state) { return Exclude; }
      if options.volumes.Some? && !(exists v :: v in options.volumes.value && (v in c.mountPoints || v in c.volumes)) {
        return Exclude;
      }
      if options.ancestors.Some? && c.imageID !in options.ancestors.value { return Exclude; }
      if options.networks.Some? && !(exists n :: n in options.networks.value && (n in c.networks || n in c.networkIDs)) {
        return Exclude;
      }
      action := Include;
    }

    /** The listing is the rendered selection, cut off at the limit. */
    method ReduceContainers<T, E>(list: seq<Container>, render: Container -> Result<Option<T>, E>)
      returns (r: Result<seq<T>, E>)
      requires idx == 0
      modifies this
      ensures r == Rendered(Selected(options, list, old(before), since), options.limit, 0, render)
    {
      var shown: seq<T> := [];
      assert list[0..] == list;
      for i := 0 to |list|
        invariant Rendered(Selected(options, list, old(before), since), options.limit, 0, render) ==
                  Put(shown, Rendered(Selected(options, list[i..], before, since), options.limit, idx, render))
      {
        ghost var rest := list[i..];
        assert rest[0] == list[i] && rest[1..] == list[i + 1..];
        ghost var opening := before;
        var action := IncludeContainer(list[i]);
        DecideAgrees(options, rest, opening, since, idx, render);
        match action {
          case Exclude =>
          case StopHere => return Ok(shown);
          case Include =>
            var t := render(list[i]);
            if t.Err? {
              return Err(t.error);
            }
            if t.value.Some? {
              PutOne(shown, t.value.value, Rendered(Selected(options, rest[1..], None, since), options.limit, idx + 1, render));
              shown := shown + [t.value.value];
              idx := idx + 1;
            }
        }
      }
      r := Ok(shown);
    }
  }

  lemma PutOne<T, E>(shown: seq<T>, t: T, r: Result<seq<T>, E>)
    ensures Put(shown + [t], r) == match r case Ok(ts) => Put(shown, Ok([t] + ts)) case Err(e) => Err(e)
  {
    if r.Ok? {
      assert shown + [t] + r.value == shown + ([t] + r.value);
    }
  }

  function Put<T, E>(shown: seq<T>, r: Result<seq<T>, E>): (all: Result<seq<T>, E>)
    ensures shown == [] ==> all == r
    ensures r == Ok([]) ==> all == Ok(shown)
  {
    match r
    case Err(e) => Err(e)
    case Ok(ts) =>
      assert shown == [] ==> shown + ts == ts;
      assert ts == [] ==> shown + ts == shown;
      Ok(shown + ts)
  }
}
