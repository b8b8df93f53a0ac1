/** The leaf of the resolution tree: a Location is a URL path framed by slashes
    together with the aliases of the containers that want to serve it. */
module Locations {
  import opened PyValues
  import opened Lists

  /** A path the `location` setter accepts: non-empty, starting and ending with '/'. */
  predicate IsPath(s: string)
  {
    |s| > 0 && s[0] == '/' && s[|s| - 1] == '/'
  }

  /** The validation chain of the `location` setter. */
  function CheckPath(v: Value): (st: Status)
    ensures st == Pass <==> v.Str? && IsPath(v.s)
    ensures v.Null? ==> st == Raised(ValueError)
    ensures !v.Null? && !v.Str? ==> st == Raised(TypeError)
    ensures v.Str? && !IsPath(v.s) ==> st == Raised(ValueError)
  {
    if v.Null? then Raised(ValueError)
    else if !v.Str? then Raised(TypeError)
    else if v.s == "" then Raised(ValueError)
    else if !(v.s[0] == v.s[|v.s| - 1] == '/') then Raised(ValueError)
    else Pass
  }

  /** The paths the source's tests try: only the one framed by slashes is accepted. */
  lemma PathExamples()
    ensures CheckPath(Str("/")) == Pass
    ensures CheckPath(Str("/location/")) == Pass
    ensures CheckPath(Str("/wrong")) == Raised(ValueError)
    ensures CheckPath(Str("wrong/")) == Raised(ValueError)
    ensures CheckPath(Str("")) == Raised(ValueError)
    ensures CheckPath(Str("wrong")) == Raised(ValueError)
    ensures CheckPath(Null) == Raised(ValueError)
    ensures CheckPath(Int(1)) == Raised(TypeError)
  {
  }

  /** What a Location holds, as a value: its path and its aliases in insertion order. */
  datatype LocRec = LocRec(path: string, aliases: seq<string>)

  /** A Location is valid when exactly one container claims it. */
  predicate LocValid(r: LocRec)
  {
    |r.aliases| == 1
  }

  class Location {
    var alias: seq<string>
    var location: string

    /** What every Location satisfies: its path passed the setter and its aliases
        were added through the de-duplicating setter. */
    ghost predicate Valid()
      reads this
    {
      IsPath(location) && NoDup(alias)
    }

    function Rec(): (r: LocRec)
      reads this
      ensures r.path == location && r.aliases == alias
    {
      LocRec(location, alias)
    }

    /** A new Location has its path and no aliases. */
    constructor (path: string)
      requires IsPath(path)
      ensures Valid()
      ensures location == path && alias == []
    {
      alias := [];
      location := path;
    }

    /** The `alias` setter: validate, then append if absent. */
    method SetAlias(value: Value) returns (st: Status)
      requires Valid()
      modifies this
      ensures Valid()
      ensures st == RequireString(value)
      ensures location == old(location)
      ensures alias == if value.Str? then AppendIfAbsent(old(alias), value.s) else old(alias)
    {
      st := RequireString(value);
      if st == Pass {
        if value.s !in alias {
          alias := alias + [value.s];
        }
      }
    }

    /** The `location` setter: validate, then overwrite. */
    method SetLocation(value: Value) returns (st: Status)
      requires Valid()
      modifies this
      ensures Valid()
      ensures st == CheckPath(value)
      ensures alias == old(alias)
      ensures location == if st == Pass then value.s else old(location)
    {
      st := CheckPath(value);
      if st == Pass {
        location := value.s;
      }
    }

    /** The `is_valid` property. */
    function IsValid(): (b: bool)
      reads this
      ensures b <==> LocValid(Rec())
    {
      |alias| == 1
    }
  }

  /** `Location(location=path)`: the constructor runs the `location` setter, so an
      unacceptable path raises instead of producing an object. */
  method NewLocation(path: Value) returns (r: Result<Location>)
    ensures r.Err? <==> CheckPath(path).Raised?
    ensures r.Err? ==> r.error == CheckPath(path).error
    ensures r.Ok? ==> fresh(r.value) && r.value.Valid() && r.value.location == path.s && r.value.alias == []
  {
    var st := CheckPath(path);
    if st.Raised? {
      return Err(st.error);
    }
    var l := new Location(path.s);
    return Ok(l);
  }

  /** For a Location built by its setters, `is_valid` says exactly that every
      stored alias is the same container: a fresh Location (no alias) and one with two
      distinct aliases are both invalid. */
  lemma ValidMeansOneContainer(r: LocRec)
    requires NoDup(r.aliases)
    ensures LocValid(r) <==> r.aliases != [] && forall i :: 0 <= i < |r.aliases| ==> r.aliases[i] == r.aliases[0]
  {
    if r.aliases != [] {
      NoDupSingleton(r.aliases, r.aliases[0]);
    }
  }

  /** Offering the same alias any positive number of times leaves one alias, so the
      Location is valid; ten offers store it once. */
  lemma RepeatedAliasValid(path: string, a: string, n: nat)
    requires n > 0
    ensures LocValid(LocRec(path, AppendAll([], seq(n, _ => a))))
  {
    OneDistinct(seq(n, _ => a));
  }

  /** Two different aliases make the Location invalid. */
  lemma TwoAliasesInvalid(path: string, a: string, b: string)
    requires a != b
    ensures !LocValid(LocRec(path, AppendAll([], [a, b])))
  {
    OneDistinct([a, b]);
    assert [a, b][1] != [a, b][0];
  }
}
