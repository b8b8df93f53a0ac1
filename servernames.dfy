/** The third level of the resolution tree: a ServerName is a domain with its
    Locations, kept unique by path. */
module ServerNames {
  import opened PyValues
  import opened Lists
  import opened Locations
  import opened TreeSpec

  /** The validation chain of the `domain` setter on a ServerName whose domain is not
      yet bound: None and `""` raise ValueError, a non-string raises TypeError. */
  function CheckDomain(v: Value): (st: Status)
    ensures st == Pass <==> v.Str? && v.s != ""
    ensures v.Null? ==> st == Raised(ValueError)
    ensures !v.Null? && !v.Str? ==> st == Raised(TypeError)
    ensures v == Str("") ==> st == Raised(ValueError)
  {
    if v.Null? then Raised(ValueError)
    else if !v.Str? then Raised(TypeError)
    else if v.s == "" then Raised(ValueError)
    else Pass
  }

  class ServerName {
    /** Bound once by the constructor; every later assignment raises (see SetDomain). */
    const domain: string
    var locations: seq<Location>
    /** The position of each stored path; it witnesses that no two Locations share one. */
    ghost var slot: map<string, nat>

    function LocSet(): set<Location>
      reads this
    {
      set l | l in locations
    }

    /** The domain passed its setter, no two Locations share a path, and each
        Location satisfies its own invariant. */
    ghost predicate Valid()
      reads this, LocSet()
    {
      && domain != ""
      && (forall i :: 0 <= i < |locations| ==> locations[i].location in slot && slot[locations[i].location] == i)
      && (forall i :: 0 <= i < |locations| ==> locations[i].Valid())
    }

    /** The Locations as values. */
    function View(): (v: ServerView)
      reads this, LocSet()
      ensures |v| == |locations|
      ensures forall i :: 0 <= i < |locations| ==> v[i] == locations[i].Rec()
    {
      seq(|locations|, i requires 0 <= i < |locations| reads this, LocSet() => locations[i].Rec())
    }

    lemma ValidView()
      requires Valid()
      ensures ServerWF(View())
    {
      var v := View();
      forall i | 0 <= i < |v| ensures IsPath(v[i].path) && NoDup(v[i].aliases) {
        assert locations[i].Valid();
      }
      forall i, j | 0 <= i < j < |v| ensures v[i].path != v[j].path {
        assert slot[locations[i].location] == i && slot[locations[j].location] == j;
      }
    }

    /** A new ServerName has its domain and no Locations. */
    constructor (d: string)
      requires d != ""
      ensures domain == d && locations == []
      ensures Valid()
    {
      domain := d;
      locations := [];
      slot := map[];
    }

    /** Assigning `domain` again: the domain is already bound, so the setter raises
        ValueError and the first domain stays. */
    method SetDomain(value: Value) returns (st: Status)
      ensures st == Raised(ValueError)
    {
      st := Raised(ValueError);
    }

    /** The membership scan of the `locations` setter: the position of the Location
        with the given path, or |locations| when there is none. */
    method IndexOf(path: string) returns (i: nat)
      ensures i <= |locations|
      ensures i < |locations| ==> locations[i].location == path
      ensures forall j :: 0 <= j < i ==> locations[j].location != path
      ensures i == FindPath(View(), path)
    {
      i := 0;
      while i < |locations| && locations[i].location != path
        invariant i <= |locations|
        invariant forall j :: 0 <= j < i ==> locations[j].location != path
      {
        i := i + 1;
      }
      FindPathIsFirst(View(), path, i);
    }

    /** The `locations` setter: None raises ValueError, a non-Location raises
        TypeError; a Location whose path is new is appended, otherwise nothing
        changes and the Location already stored stays. */
    method SetLocations(value: Arg<Location>) returns (st: Status)
      requires Valid()
      requires value.Instance? ==> value.obj.Valid()
      modifies this
      ensures Valid()
      ensures st == RequireInstance(value)
      ensures value.Instance? && (forall i :: 0 <= i < |old(locations)| ==> old(locations)[i].location != value.obj.location)
        ==> locations == old(locations) + [value.obj]
      ensures !(value.Instance? && (forall i :: 0 <= i < |old(locations)| ==> old(locations)[i].location != value.obj.location))
        ==> locations == old(locations)
    {
      st := RequireInstance(value);
      if st == Pass {
        var i := IndexOf(value.obj.location);
        if i == |locations| {
          slot := slot[value.obj.location := |locations|];
          locations := locations + [value.obj];
        }
      }
    }

    /** Adds an alias to the Location at position i; nothing else changes. */
    method AddAliasAt(i: nat, alias: string)
      requires Valid() && i < |locations|
      modifies locations[i]
      ensures Valid()
      ensures locations == old(locations)
      ensures View() == old(View())[i := LocRec(old(View())[i].path, AppendIfAbsent(old(View())[i].aliases, alias))]
    {
      var loc := locations[i];
      var s := loc.SetAlias(Str(alias));
      assert forall j :: 0 <= j < |locations| && j != i ==> locations[j] != loc;
    }

    /** Creates the Location for a path not yet present (the path is validated) and
        gives it the alias; it is new and goes last. */
    method AddLocation(path: string, alias: string) returns (st: Status)
      requires Valid()
      requires forall j :: 0 <= j < |locations| ==> locations[j].location != path
      modifies this
      ensures Valid()
      ensures IsPath(path) ==> st == Pass && View() == old(View()) + [LocRec(path, [alias])]
      ensures IsPath(path) ==>
        (|locations| == |old(locations)| + 1 && locations[..|old(locations)|] == old(locations)
         && fresh(locations[|old(locations)|]))
      ensures !IsPath(path) ==> st == Raised(ValueError) && locations == old(locations)
    {
      var r := NewAliasedLocation(path, alias);
      if r.Err? {
        return Raised(r.error);
      }
      var loc := r.value;
      st := SetLocations(Instance(loc));
      assert locations == old(locations) + [loc];
      assert locations[..|old(locations)|] == old(locations);
    }

    /** One directive reaching this ServerName (the test-fixed meaning of the
        `directives` and `_build` members `Listen._build` calls): get the Location
        for the path, creating it when there is none, and add the alias to it.
        Existing Locations keep their order; a created one is new and goes last. */
    method AddDirective(alias: string, path: string) returns (st: Status)
      requires Valid()
      modifies this, LocSet()
      ensures Valid()
      ensures Absorbed(old(View()), View(), path, alias, st)
      ensures |old(locations)| <= |locations| && locations[..|old(locations)|] == old(locations)
      ensures fresh(LocSet() - old(LocSet()))
    {
      var i := IndexOf(path);
      ghost var v0 := View();
      if i < |locations| {
        AddAliasAt(i, alias);
        st := Pass;
      } else {
        st := AddLocation(path, alias);
      }
    }

    /** The `is_valid` that `Listen.is_valid` reads (test-fixed meaning): every
        Location is valid. */
    function IsValid(): (b: bool)
      reads this, LocSet()
      ensures b <==> ServerValid(View())
    {
      forall i | 0 <= i < |locations| :: locations[i].IsValid()
    }
  }

  /** `Location(location=path)` followed by assigning `alias`: a new Location
      holding the path and the one alias, or the error the path raises. */
  method NewAliasedLocation(path: string, alias: string) returns (r: Result<Location>)
    ensures r.Err? <==> !IsPath(path)
    ensures r.Err? ==> r.error == ValueError
    ensures r.Ok? ==> fresh(r.value) && r.value.Valid() && r.value.Rec() == LocRec(path, [alias])
  {
    r := NewLocation(Str(path));
    if r.Ok? {
      var st := r.value.SetAlias(Str(alias));
    }
  }

  lemma FindPathIsFirst(locs: ServerView, p: string, i: nat)
    requires i <= |locs|
    requires i < |locs| ==> locs[i].path == p
    requires forall j :: 0 <= j < i ==> locs[j].path != p
    ensures i == FindPath(locs, p)
  {
  }

  /** `ServerName(domain=d)`: the constructor runs the `domain` setter, so an
      unacceptable domain raises instead of producing an object. */
  method NewServerName(domain: Value) returns (r: Result<ServerName>)
    ensures r.Err? <==> CheckDomain(domain).Raised?
    ensures r.Err? ==> r.error == CheckDomain(domain).error
    ensures r.Ok? ==> fresh(r.value) && r.value.Valid() && r.value.domain == domain.s && r.value.locations == []
  {
    var st := CheckDomain(domain);
    if st.Raised? {
      return Err(st.error);
    }
    var sn := new ServerName(domain.s);
    return Ok(sn);
  }
}
