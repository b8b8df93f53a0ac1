/** The resolution tree below one Listen, as a value: each domain maps to its Locations
    in insertion order. `Listen._build` is a left fold of BuildStep over the routes of
    the stored directives, stopping at the first exception. The classes are proved
    against these functions, and the properties of the fold are proved here. */
module TreeSpec {
  import opened PyValues
  import opened Lists
  import opened Locations
  import opened Signatures

  /** The Locations of one ServerName, in insertion order. */
  type ServerView = seq<LocRec>

  /** The ServerNames of one Listen, keyed by domain. */
  type ListenView = map<string, ServerView>

  /** The state reached and how the last statement ended. */
  datatype Built = Built(view: ListenView, status: Status)

  /** The first position holding path p, or |locs| when there is none: the membership
      scan of the `locations` setter. */
  function FindPath(locs: ServerView, p: string): (i: nat)
    ensures i <= |locs|
    ensures i < |locs| ==> locs[i].path == p
    ensures forall j :: 0 <= j < i ==> locs[j].path != p
    decreases |locs|
  {
    if locs == [] then 0
    else if locs[0].path == p then 0
    else 1 + FindPath(locs[1..], p)
  }

  ghost predicate UniquePaths(locs: ServerView)
  {
    forall i, j :: 0 <= i < j < |locs| ==> locs[i].path != locs[j].path
  }

  /** What the setters guarantee about the Locations of a ServerName. */
  ghost predicate ServerWF(locs: ServerView)
  {
    UniquePaths(locs) && forall i :: 0 <= i < |locs| ==> IsPath(locs[i].path) && NoDup(locs[i].aliases)
  }

  /** Adding a framed path not yet present keeps the invariant. */
  lemma ServerWFSnoc(locs: ServerView, r: LocRec)
    requires ServerWF(locs) && IsPath(r.path) && NoDup(r.aliases)
    requires forall i :: 0 <= i < |locs| ==> locs[i].path != r.path
    ensures ServerWF(locs + [r])
  {
    var w := locs + [r];
    assert forall i :: 0 <= i < |locs| ==> w[i] == locs[i];
  }

  /** Offering an alias to a stored Location keeps the invariant. */
  lemma ServerWFOffer(locs: ServerView, i: nat, alias: string)
    requires ServerWF(locs) && i < |locs|
    ensures ServerWF(locs[i := LocRec(locs[i].path, AppendIfAbsent(locs[i].aliases, alias))])
  {
  }

  ghost predicate ViewWF(v: ListenView)
  {
    forall s :: s in v ==> ServerWF(v[s])
  }

  /** Some Location of locs has path p and lists alias a. */
  ghost predicate Stores(locs: ServerView, p: string, a: string)
  {
    exists i :: 0 <= i < |locs| && locs[i].path == p && a in locs[i].aliases
  }

  /** The tree already records route r. */
  ghost predicate Contains(v: ListenView, r: Route)
  {
    r.server in v && Stores(v[r.server], r.path, r.alias)
  }

  /** One directive reaching a ServerName: get the Location for the path (creating it,
      which validates the path, when there is none) and add the alias to it. */
  function AbsorbV(locs: ServerView, path: string, alias: string): (r: Result<ServerView>)
    ensures r.Err? <==> FindPath(locs, path) == |locs| && !IsPath(path)
    ensures r.Err? ==> r.error == ValueError
    ensures r.Ok? ==> |locs| <= |r.value| <= |locs| + 1
  {
    var i := FindPath(locs, path);
    if i < |locs| then Ok(locs[i := LocRec(path, AppendIfAbsent(locs[i].aliases, alias))])
    else if IsPath(path) then Ok(locs + [LocRec(path, [alias])])
    else
      Err(ValueError)
  }

  /** What absorbing a directive does to a ServerName's Locations: the path ends up
      holding the alias; earlier entries keep their paths and only the one with the
      path gains the alias; a new entry, when there is one, is the path alone with the
      alias and goes last; well-formedness is kept. */
  lemma AbsorbVShape(locs: ServerView, path: string, alias: string)
    ensures var r := AbsorbV(locs, path, alias);
      && (r.Err? <==> (forall i :: 0 <= i < |locs| ==> locs[i].path != path) && !IsPath(path))
      && (r.Ok? ==> Stores(r.value, path, alias))
      && (r.Ok? ==> forall j :: 0 <= j < |locs| ==>
           (r.value[j].path == locs[j].path
            && (r.value[j] == locs[j] || (locs[j].path == path && r.value[j].aliases == AppendIfAbsent(locs[j].aliases, alias)))))
      && (r.Ok? && |r.value| > |locs| ==>
           r.value[|locs|] == LocRec(path, [alias]) && forall j :: 0 <= j < |locs| ==> locs[j].path != path)
      && (r.Ok? && ServerWF(locs) ==> ServerWF(r.value))
  {
    var i := FindPath(locs, path);
    if i < |locs| {
      var w := locs[i := LocRec(path, AppendIfAbsent(locs[i].aliases, alias))];
      assert w[i].path == path && alias in w[i].aliases;
    } else if IsPath(path) {
      var w := locs + [LocRec(path, [alias])];
      assert w[|locs|].path == path && alias in w[|locs|].aliases;
    }
  }

  /** One iteration of `Listen._build`: create the ServerName for the domain when
      there is none (it stays even if the next statement raises), then absorb. */
  function BuildStep(v: ListenView, r: Route): (b: Built)
    ensures b.view.Keys == v.Keys + {r.server}
    ensures b.status == Pass || b.status == Raised(ValueError)
    ensures b.status.Raised? ==> b.view[r.server] == (if r.server in v then v[r.server] else [])
  {
    var v1 := if r.server in v then v else v[r.server := []];
    var a := AbsorbV(v1[r.server], r.path, r.alias);
    if a.Ok? then Built(v1[r.server := a.value], Pass) else Built(v1, Raised(a.error))
  }

  /** One step leaves every other domain alone, stores the route when it passes and
      keeps the view well formed. */
  lemma StepShape(v: ListenView, r: Route)
    ensures var b := BuildStep(v, r);
      && (forall s :: s in v && s != r.server ==> b.view[s] == v[s])
      && (b.status == Pass ==> Contains(b.view, r))
      && (ViewWF(v) ==> ViewWF(b.view))
  {
    var v1 := if r.server in v then v else v[r.server := []];
    AbsorbVShape(v1[r.server], r.path, r.alias);
  }

  /** `Listen._build` over routes rs, starting from view v. */
  function BuildV(v: ListenView, rs: seq<Route>): Built
    decreases |rs|
  {
    if rs == [] then Built(v, Pass)
    else
      var b := BuildV(v, rs[..|rs| - 1]);
      if b.status.Raised? then b else BuildStep(b.view, rs[|rs| - 1])
  }

  /** The domains named by the routes. */
  function Servers(rs: seq<Route>): set<string>
  {
    set i | 0 <= i < |rs| :: rs[i].server
  }

  /** Every Location of a ServerName is valid. */
  predicate ServerValid(locs: ServerView)
  {
    forall k :: 0 <= k < |locs| ==> LocValid(locs[k])
  }

  /** Every ServerName of a Listen is valid. */
  ghost predicate ViewValid(v: ListenView)
  {
    forall s :: s in v ==> ServerValid(v[s])
  }

  /** Routes that name the same domain and path name the same container. */
  ghost predicate Consistent(rs: seq<Route>)
  {
    forall i, j :: 0 <= i < |rs| && 0 <= j < |rs| && rs[i].server == rs[j].server && rs[i].path == rs[j].path
      ==> rs[i].alias == rs[j].alias
  }

  lemma ServersSnoc(rs: seq<Route>)
    requires rs != []
    ensures Servers(rs) == Servers(rs[..|rs| - 1]) + {rs[|rs| - 1].server}
  {
    var init := rs[..|rs| - 1];
    assert forall i :: 0 <= i < |init| ==> init[i] == rs[i];
  }

  lemma UpdateAt(v: ListenView, w: ListenView, s: string)
    requires w.Keys == v.Keys + {s}
    requires forall k :: k in v && k != s ==> w[k] == v[k]
    ensures w == v[s := w[s]]
  {
  }

  lemma UpdateSame(v: ListenView, s: string, locs: ServerView)
    requires s in v && v[s] == locs
    ensures v[s := locs] == v
  {
  }

  /** The status and the new Locations of a ServerName that took one directive:
      AbsorbV's result, or the old Locations and the error it raised. */
  ghost predicate Absorbed(s0: ServerView, s1: ServerView, path: string, alias: string, st: Status)
  {
    var a := AbsorbV(s0, path, alias);
    && (a.Ok? ==> st == Pass && s1 == a.value)
    && (a.Err? ==> st == Raised(a.error) && s1 == s0)
  }

  /** The same for the ServerName of the route's domain inside a tree. */
  ghost predicate AbsorbedAt(v0: ListenView, v1: ListenView, r: Route, st: Status)
  {
    && r.server in v0
    && var a := AbsorbV(v0[r.server], r.path, r.alias);
    && (a.Ok? ==> st == Pass && v1 == v0[r.server := a.value])
    && (a.Err? ==> st == Raised(a.error) && v1 == v0)
  }

  /** One step is ensuring the domain (giving mid) and then absorbing into it. */
  lemma StepVia(v: ListenView, r: Route, mid: ListenView, w: ListenView, st: Status)
    requires mid == if r.server in v then v else v[r.server := []]
    requires AbsorbedAt(mid, w, r, st)
    ensures BuildStep(v, r) == Built(w, st)
  {
  }

  /** A successful prefix extends by one step. */
  lemma BuildSnoc(v: ListenView, rs: seq<Route>, i: nat, w: ListenView)
    requires i < |rs| && BuildV(v, rs[..i]) == Built(w, Pass)
    ensures BuildV(v, rs[..i + 1]) == BuildStep(w, rs[i])
  {
    assert rs[..i + 1][..i] == rs[..i];
  }

  /** Once a prefix of the routes raises, the later routes change nothing. */
  lemma {:induction false} BuildStops(v: ListenView, rs: seq<Route>, i: nat)
    requires i <= |rs|
    requires i < |rs| ==> BuildV(v, rs[..i]).status.Raised?
    ensures BuildV(v, rs) == BuildV(v, rs[..i])
    decreases |rs| - i
  {
    if i < |rs| {
      var init := rs[..|rs| - 1];
      assert init[..i] == rs[..i];
      BuildStops(v, init, i);
    } else {
      assert rs[..i] == rs;
    }
  }

  /** Building only adds domains, and a successful build ends with exactly the old
      domains plus the domains of the routes, whatever ip and port they carry. */
  lemma {:induction false} BuildKeys(v: ListenView, rs: seq<Route>)
    ensures v.Keys <= BuildV(v, rs).view.Keys <= v.Keys + Servers(rs)
    ensures BuildV(v, rs).status == Pass ==> BuildV(v, rs).view.Keys == v.Keys + Servers(rs)
    decreases |rs|
  {
    if rs != [] {
      BuildKeys(v, rs[..|rs| - 1]);
      ServersSnoc(rs);
    }
  }

  /** Building keeps the invariants of the setters. */
  lemma {:induction false} BuildWF(v: ListenView, rs: seq<Route>)
    requires ViewWF(v)
    ensures ViewWF(BuildV(v, rs).view)
    decreases |rs|
  {
    if rs != [] {
      var init := rs[..|rs| - 1];
      BuildWF(v, init);
      StepShape(BuildV(v, init).view, rs[|rs| - 1]);
    }
  }

  /** In a well-formed tree every stored path is framed by slashes, so a step
      raises exactly when the route's own path is not. */
  lemma StepPass(v: ListenView, r: Route)
    requires ViewWF(v)
    ensures BuildStep(v, r).status == Pass <==> IsPath(r.path)
  {
    if !IsPath(r.path) && r.server in v {
      assert ServerWF(v[r.server]);
    }
  }

  /** The build raises exactly when some route's path is not framed by slashes (the
      grammar admits paths such as `loc` that the Location rejects), and then it
      raises ValueError. */
  lemma {:induction false} BuildPass(v: ListenView, rs: seq<Route>)
    requires ViewWF(v)
    ensures BuildV(v, rs).status == Pass <==> forall i :: 0 <= i < |rs| ==> IsPath(rs[i].path)
    ensures BuildV(v, rs).status.Raised? ==> BuildV(v, rs).status.error == ValueError
    decreases |rs|
  {
    if rs != [] {
      var init := rs[..|rs| - 1];
      var last := rs[|rs| - 1];
      BuildPass(v, init);
      var b := BuildV(v, init);
      if b.status.Raised? {
        var i :| 0 <= i < |init| && !IsPath(init[i].path);
        assert rs[i] == init[i];
      } else {
        assert forall i :: 0 <= i < |init| ==> init[i] == rs[i];
        BuildWF(v, init);
        StepPass(b.view, last);
      }
    }
  }

  /** A recorded route stays recorded by a later successful step. */
  lemma StepKeeps(v: ListenView, r: Route, q: Route)
    requires Contains(v, q) && BuildStep(v, r).status == Pass
    ensures Contains(BuildStep(v, r).view, q)
  {
    var w: ListenView := BuildStep(v, r).view;
    StepShape(v, r);
    if q.server == r.server {
      AbsorbVShape(v[r.server], r.path, r.alias);
      var i :| 0 <= i < |v[q.server]| && v[q.server][i].path == q.path && q.alias in v[q.server][i].aliases;
      assert w[q.server][i].path == q.path && q.alias in w[q.server][i].aliases;
    }
  }

  /** After a successful build every route is recorded. */
  lemma {:induction false} BuildCovers(v: ListenView, rs: seq<Route>)
    requires BuildV(v, rs).status == Pass
    ensures forall i :: 0 <= i < |rs| ==> Contains(BuildV(v, rs).view, rs[i])
    decreases |rs|
  {
    if rs != [] {
      var init := rs[..|rs| - 1];
      var last := rs[|rs| - 1];
      var b := BuildV(v, init);
      assert b.status == Pass;
      BuildCovers(v, init);
      var w := BuildStep(b.view, last);
      assert BuildV(v, rs) == w;
      StepShape(b.view, last);
      assert Contains(w.view, last);
      forall i | 0 <= i < |rs| ensures Contains(w.view, rs[i]) {
        if i < |init| {
          assert init[i] == rs[i];
          StepKeeps(b.view, last, rs[i]);
        } else {
          assert i == |rs| - 1;
        }
      }
    }
  }

  /** Offering a route the tree already records changes nothing. */
  lemma StepNoop(v: ListenView, r: Route)
    requires ViewWF(v) && Contains(v, r)
    ensures BuildStep(v, r) == Built(v, Pass)
  {
    var locs := v[r.server];
    var i := FindPath(locs, r.path);
    var j :| 0 <= j < |locs| && locs[j].path == r.path && r.alias in locs[j].aliases;
    assert i == j;
    AppendIfAbsentPresent(locs[j].aliases, r.alias);
    assert locs[i := LocRec(r.path, AppendIfAbsent(locs[i].aliases, r.alias))] == locs;
  }

  lemma {:induction false} AllRecordedNoop(v: ListenView, rs: seq<Route>)
    requires ViewWF(v)
    requires forall i :: 0 <= i < |rs| ==> Contains(v, rs[i])
    ensures BuildV(v, rs) == Built(v, Pass)
    decreases |rs|
  {
    if rs != [] {
      var init := rs[..|rs| - 1];
      assert forall i :: 0 <= i < |init| ==> init[i] == rs[i];
      AllRecordedNoop(v, init);
      StepNoop(v, rs[|rs| - 1]);
    }
  }

  /** Building twice from the same directives is the same as building once. */
  lemma BuildIdempotent(v: ListenView, rs: seq<Route>)
    requires ViewWF(v) && BuildV(v, rs).status == Pass
    ensures BuildV(BuildV(v, rs).view, rs) == BuildV(v, rs)
  {
    BuildWF(v, rs);
    BuildCovers(v, rs);
    AllRecordedNoop(BuildV(v, rs).view, rs);
  }

  /** Some route of rs names domain s, path p and container a. */
  ghost predicate Sourced(rs: seq<Route>, s: string, p: string, a: string)
  {
    exists i :: 0 <= i < |rs| && rs[i].server == s && rs[i].path == p && rs[i].alias == a
  }

  /** Every alias stored under domain s comes from a route naming s and its path. */
  ghost predicate SoundAt(locs: ServerView, rs: seq<Route>, s: string)
  {
    forall k, j :: 0 <= k < |locs| && 0 <= j < |locs[k].aliases| ==> Sourced(rs, s, locs[k].path, locs[k].aliases[j])
  }

  ghost predicate Sound(v: ListenView, rs: seq<Route>)
  {
    forall s :: s in v ==> SoundAt(v[s], rs, s)
  }

  /** Every stored Location has at least one alias. */
  ghost predicate OccupiedAt(locs: ServerView)
  {
    forall k :: 0 <= k < |locs| ==> locs[k].aliases != []
  }

  ghost predicate Occupied(v: ListenView)
  {
    forall s :: s in v ==> OccupiedAt(v[s])
  }

  lemma SoundExtend(locs: ServerView, rs: seq<Route>, s: string)
    requires rs != [] && SoundAt(locs, rs[..|rs| - 1], s)
    ensures SoundAt(locs, rs, s)
  {
    var init := rs[..|rs| - 1];
    forall k, j | 0 <= k < |locs| && 0 <= j < |locs[k].aliases|
      ensures Sourced(rs, s, locs[k].path, locs[k].aliases[j])
    {
      assert Sourced(init, s, locs[k].path, locs[k].aliases[j]);
      var i :| 0 <= i < |init| && init[i].server == s && init[i].path == locs[k].path && init[i].alias == locs[k].aliases[j];
      assert rs[i] == init[i];
    }
  }

  /** Absorbing the last route keeps every stored alias sourced and every Location occupied. */
  lemma AbsorbSound(locs: ServerView, rs: seq<Route>)
    requires rs != []
    requires SoundAt(locs, rs[..|rs| - 1], rs[|rs| - 1].server) && OccupiedAt(locs)
    requires AbsorbV(locs, rs[|rs| - 1].path, rs[|rs| - 1].alias).Ok?
    ensures SoundAt(AbsorbV(locs, rs[|rs| - 1].path, rs[|rs| - 1].alias).value, rs, rs[|rs| - 1].server)
    ensures OccupiedAt(AbsorbV(locs, rs[|rs| - 1].path, rs[|rs| - 1].alias).value)
  {
    var r := rs[|rs| - 1];
    var s := r.server;
    var w := AbsorbV(locs, r.path, r.alias).value;
    AbsorbVShape(locs, r.path, r.alias);
    SoundExtend(locs, rs, s);
    assert Sourced(rs, s, r.path, r.alias) by {
      assert rs[|rs| - 1] == r;
    }
    forall k, j | 0 <= k < |w| && 0 <= j < |w[k].aliases|
      ensures Sourced(rs, s, w[k].path, w[k].aliases[j])
    {
      if k < |locs| && w[k] != locs[k] {
        var al := w[k].aliases;
        assert al == AppendIfAbsent(locs[k].aliases, r.alias);
        if al[j] != r.alias {
          assert al[j] in locs[k].aliases;
          var j' :| 0 <= j' < |locs[k].aliases| && locs[k].aliases[j'] == al[j];
          assert Sourced(rs, s, locs[k].path, locs[k].aliases[j']);
        }
      } else if k < |locs| {
        assert Sourced(rs, s, locs[k].path, locs[k].aliases[j]);
      }
    }
  }

  lemma SoundStep(v: ListenView, rs: seq<Route>)
    requires rs != [] && Sound(v, rs[..|rs| - 1]) && Occupied(v)
    ensures Sound(BuildStep(v, rs[|rs| - 1]).view, rs)
    ensures Occupied(BuildStep(v, rs[|rs| - 1]).view)
  {
    var r := rs[|rs| - 1];
    var b := BuildStep(v, r);
    forall s | s in b.view ensures SoundAt(b.view[s], rs, s) && OccupiedAt(b.view[s]) {
      if s != r.server {
        SoundExtend(v[s], rs, s);
      } else {
        var locs: ServerView := if r.server in v then v[r.server] else [];
        if b.status == Pass {
          AbsorbSound(locs, rs);
        } else {
          SoundExtend(locs, rs, s);
        }
      }
    }
  }

  /** Building from the empty tree stores only aliases the routes supply, and never
      leaves a Location without an alias. */
  lemma {:induction false} BuildSound(rs: seq<Route>)
    ensures Sound(BuildV(map[], rs).view, rs)
    ensures Occupied(BuildV(map[], rs).view)
    decreases |rs|
  {
    if rs != [] {
      var init := rs[..|rs| - 1];
      var b := BuildV(map[], init);
      BuildSound(init);
      if b.status.Raised? {
        forall s | s in b.view ensures SoundAt(b.view[s], rs, s) {
          SoundExtend(b.view[s], rs, s);
        }
      } else {
        SoundStep(b.view, rs);
      }
    }
  }

  /** Consistent routes leave every Location with one alias. */
  lemma ConsistentValid(v: ListenView, rs: seq<Route>)
    requires ViewWF(v) && Sound(v, rs) && Occupied(v) && Consistent(rs)
    ensures ViewValid(v)
  {
    forall s, k | s in v && 0 <= k < |v[s]| ensures LocValid(v[s][k]) {
      var al := v[s][k].aliases;
      assert SoundAt(v[s], rs, s) && OccupiedAt(v[s]) && ServerWF(v[s]);
      forall j | 0 <= j < |al| ensures al[j] == al[0] {
        assert Sourced(rs, s, v[s][k].path, al[j]);
        assert Sourced(rs, s, v[s][k].path, al[0]);
      }
      ValidMeansOneContainer(v[s][k]);
    }
  }

  /** A tree that records every route and whose Locations each hold one alias can
      only come from consistent routes. */
  lemma ValidConsistent(v: ListenView, rs: seq<Route>)
    requires ViewWF(v) && ViewValid(v)
    requires forall i :: 0 <= i < |rs| ==> Contains(v, rs[i])
    ensures Consistent(rs)
  {
    forall i, j | 0 <= i < |rs| && 0 <= j < |rs| && rs[i].server == rs[j].server && rs[i].path == rs[j].path
      ensures rs[i].alias == rs[j].alias
    {
      assert Contains(v, rs[i]) && Contains(v, rs[j]);
      var locs := v[rs[i].server];
      assert ServerWF(locs) && ServerValid(locs);
      var k1 :| 0 <= k1 < |locs| && locs[k1].path == rs[i].path && rs[i].alias in locs[k1].aliases;
      var k2 :| 0 <= k2 < |locs| && locs[k2].path == rs[j].path && rs[j].alias in locs[k2].aliases;
      assert k1 == k2;
      assert LocValid(locs[k1]);
    }
  }

  /** The validity of a successfully built Listen: it is valid iff no two routes give
      the same domain and path to different containers. */
  lemma BuildValidIff(rs: seq<Route>)
    requires BuildV(map[], rs).status == Pass
    ensures ViewValid(BuildV(map[], rs).view) <==> Consistent(rs)
  {
    var v := BuildV(map[], rs).view;
    BuildWF(map[], rs);
    BuildSound(rs);
    BuildCovers(map[], rs);
    if Consistent(rs) {
      ConsistentValid(v, rs);
    }
    if ViewValid(v) {
      ValidConsistent(v, rs);
    }
  }
}
