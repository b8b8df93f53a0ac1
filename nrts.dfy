/** The root of the resolution tree: an Nrt keeps the directives handed in by the
    containers, unique by signature, and its Listens keyed by their `ip:port`
    address. Resolving creates one Listen per distinct address of the stored
    signatures; the Listens it creates are empty. */
module Nrts {
  import opened PyValues
  import opened Lists
  import opened Text
  import opened Signatures
  import opened Addresses
  import opened Listens

  /** The signatures of the stored directives, in order. */
  function Sigs(ds: seq<Value>): (ss: seq<string>)
    requires forall i :: 0 <= i < |ds| ==> IsDirective(ds[i])
    ensures |ss| == |ds| && forall i :: 0 <= i < |ds| ==> ss[i] == SignatureOf(ds[i])
  {
    seq(|ds|, i requires 0 <= i < |ds| && IsDirective(ds[i]) => SignatureOf(ds[i]))
  }

  /** The `directives` setter of the Nrt on values: a directive that passes the
      grammar is appended unless a stored one has the same signature. */
  function OfferDirective(ds: seq<Value>, d: Value): seq<Value>
    requires forall i :: 0 <= i < |ds| ==> IsDirective(ds[i])
  {
    if IsDirective(d) && SignatureOf(d) !in Sigs(ds) then ds + [d] else ds
  }

  /** Offering directives one after another, rejected ones included. */
  function OfferAll(ds: seq<Value>, xs: seq<Value>): (r: seq<Value>)
    requires forall i :: 0 <= i < |ds| ==> IsDirective(ds[i])
    ensures forall i :: 0 <= i < |r| ==> IsDirective(r[i])
    decreases |xs|
  {
    if xs == [] then ds
    else
      var init := OfferAll(ds, xs[..|xs| - 1]);
      var w := OfferDirective(init, xs[|xs| - 1]);
      assert forall i :: 0 <= i < |w| ==> IsDirective(w[i]);
      w
  }

  /** Offering a directive keeps only directives that pass the grammar, never stores
      two with one signature, keeps the stored ones in place, and stores the new one
      exactly when it passes and its signature is new. */
  lemma OfferDirectiveSpec(ds: seq<Value>, d: Value)
    requires forall i :: 0 <= i < |ds| ==> IsDirective(ds[i])
    requires NoDup(Sigs(ds))
    ensures var r := OfferDirective(ds, d);
      && (forall i :: 0 <= i < |r| ==> IsDirective(r[i]))
      && NoDup(Sigs(r))
      && |ds| <= |r| && r[..|ds|] == ds
      && (|r| > |ds| <==> CheckDirective(d) == Pass && forall i :: 0 <= i < |ds| ==> SignatureOf(ds[i]) != SignatureOf(d))
      && (|r| > |ds| ==> r == ds + [d])
  {
    if IsDirective(d) && SignatureOf(d) !in Sigs(ds) {
      var s := Sigs(ds + [d]);
      assert s == Sigs(ds) + [SignatureOf(d)];
      forall i, j | 0 <= i < j < |s| ensures s[i] != s[j] {
        if j == |ds| {
          assert s[i] == Sigs(ds)[i];
        } else {
          assert s[i] == Sigs(ds)[i] && s[j] == Sigs(ds)[j];
        }
      }
    } else if IsDirective(d) {
      var i :| 0 <= i < |ds| && Sigs(ds)[i] == SignatureOf(d);
      assert SignatureOf(ds[i]) == SignatureOf(d);
    }
  }

  /** First write wins: once a signature is stored, a directive with the same
      signature, whatever its other entries, changes nothing. */
  lemma SameSignatureDropped(ds: seq<Value>, d: Value, e: Value)
    requires forall i :: 0 <= i < |ds| ==> IsDirective(ds[i])
    requires IsDirective(d) && IsDirective(e) && SignatureOf(d) == SignatureOf(e)
    ensures var r := OfferDirective(ds, d);
      OfferDirective(r, e) == r && SignatureOf(d) in Sigs(r)
  {
    var r := OfferDirective(ds, d);
    if r == ds {
      var i :| 0 <= i < |ds| && Sigs(ds)[i] == SignatureOf(d);
      assert Sigs(r)[i] == SignatureOf(e);
    } else {
      assert Sigs(r)[|ds|] == SignatureOf(e);
    }
  }

  /** The last of duplicate-free signatures is not among the earlier ones. */
  lemma LastSignatureNew(xs: seq<Value>)
    requires xs != [] && forall i :: 0 <= i < |xs| ==> IsDirective(xs[i])
    requires NoDup(Sigs(xs))
    ensures NoDup(Sigs(xs[..|xs| - 1]))
    ensures SignatureOf(xs[|xs| - 1]) !in Sigs(xs[..|xs| - 1])
  {
    var init := xs[..|xs| - 1];
    assert Sigs(init) == Sigs(xs)[..|xs| - 1];
    NoDupPrefix(Sigs(xs), |xs| - 1);
    forall i | 0 <= i < |init| ensures Sigs(init)[i] != SignatureOf(xs[|xs| - 1]) {
      assert Sigs(xs)[i] == Sigs(init)[i] && Sigs(xs)[|xs| - 1] == SignatureOf(xs[|xs| - 1]);
    }
  }

  /** Directives that pass the grammar and have pairwise distinct signatures are all
      kept, in the order they were offered. */
  lemma {:induction false} DistinctKeptInOrder(xs: seq<Value>)
    requires forall i :: 0 <= i < |xs| ==> IsDirective(xs[i])
    requires NoDup(Sigs(xs))
    ensures OfferAll([], xs) == xs
    decreases |xs|
  {
    if xs != [] {
      var init := xs[..|xs| - 1];
      var last := xs[|xs| - 1];
      LastSignatureNew(xs);
      DistinctKeptInOrder(init);
      assert OfferAll([], xs) == OfferDirective(init, last);
      assert init + [last] == xs;
    }
  }

  /** The address parts of a stored Listen: its ip and its port as given. */
  datatype Endpoint = Endpoint(ip: string, port: Port)

  /** The Listens of an Nrt as values, keyed like the `_listen` dict. */
  type NrtView = map<string, Endpoint>

  /** Every key is the address of the Listen stored under it. */
  ghost predicate Keyed(v: NrtView)
  {
    forall a :: a in v ==> Addresses.Address(v[a].ip, v[a].port) == a
  }

  /** The address of the Listen that `resolve` builds for a route: the ip and the
      port are the strings split from the signature. */
  function RouteAddress(r: Route): string
  {
    Addresses.Address(r.ip, TextPort(r.port))
  }

  /** `Listen(ip=r.ip, port=r.port)` for a route: the port is a string, so only the
      ip check and the port range can fail. */
  lemma RouteListen(r: Route)
    ensures CheckListen(Str(r.ip), Str(r.port)) == Pass <==> IsIPv4(r.ip) && PortOk(TextPort(r.port))
    ensures CheckListen(Str(r.ip), Str(r.port)).Raised? ==> CheckListen(Str(r.ip), Str(r.port)).error == ValueError
  {
  }

  datatype Resolved = Resolved(view: NrtView, status: Status)

  /** One iteration of `resolve`: construct the Listen (which may raise) and store it
      unless its address is already a key. */
  function ResolveStep(v: NrtView, r: Route): Resolved
  {
    var st := CheckListen(Str(r.ip), Str(r.port));
    if st.Raised? then Resolved(v, st)
    else if RouteAddress(r) in v then Resolved(v, Pass)
    else Resolved(v[RouteAddress(r) := Endpoint(r.ip, TextPort(r.port))], Pass)
  }

  /** `resolve` over routes rs from view v, stopping at the first exception. */
  function ResolveV(v: NrtView, rs: seq<Route>): Resolved
    decreases |rs|
  {
    if rs == [] then Resolved(v, Pass)
    else
      var b := ResolveV(v, rs[..|rs| - 1]);
      if b.status.Raised? then b else ResolveStep(b.view, rs[|rs| - 1])
  }

  /** The addresses the routes ask for. */
  function RouteAddresses(rs: seq<Route>): set<string>
  {
    set i | 0 <= i < |rs| :: RouteAddress(rs[i])
  }

  lemma AddressesSnoc(rs: seq<Route>)
    requires rs != []
    ensures RouteAddresses(rs) == RouteAddresses(rs[..|rs| - 1]) + {RouteAddress(rs[|rs| - 1])}
  {
    var init := rs[..|rs| - 1];
    forall a | a in RouteAddresses(rs) ensures a in RouteAddresses(init) + {RouteAddress(rs[|rs| - 1])} {
      var i :| 0 <= i < |rs| && RouteAddress(rs[i]) == a;
      if i < |init| {
        assert init[i] == rs[i];
      }
    }
    forall a | a in RouteAddresses(init) ensures a in RouteAddresses(rs) {
      var i :| 0 <= i < |init| && RouteAddress(init[i]) == a;
      assert rs[i] == init[i];
    }
  }

  /** A successful resolve leaves exactly the old keys and the addresses of the
      routes. */
  lemma {:induction false} ResolveKeys(v: NrtView, rs: seq<Route>)
    requires ResolveV(v, rs).status == Pass
    ensures ResolveV(v, rs).view.Keys == v.Keys + RouteAddresses(rs)
    decreases |rs|
  {
    if rs != [] {
      ResolveKeys(v, rs[..|rs| - 1]);
      AddressesSnoc(rs);
    }
  }

  /** Resolve passes exactly when every route names an IPv4 address and a port in
      1..65535; otherwise it raises ValueError. */
  lemma {:induction false} ResolvePass(v: NrtView, rs: seq<Route>)
    ensures ResolveV(v, rs).status == Pass <==> forall i :: 0 <= i < |rs| ==> IsIPv4(rs[i].ip) && PortOk(TextPort(rs[i].port))
    ensures ResolveV(v, rs).status.Raised? ==> ResolveV(v, rs).status.error == ValueError
    decreases |rs|
  {
    if rs != [] {
      var init := rs[..|rs| - 1];
      ResolvePass(v, init);
      assert forall i :: 0 <= i < |init| ==> init[i] == rs[i];
      if ResolveV(v, init).status.Raised? {
        var i :| 0 <= i < |init| && !(IsIPv4(init[i].ip) && PortOk(TextPort(init[i].port)));
        assert rs[i] == init[i];
      } else {
        RouteListen(rs[|rs| - 1]);
      }
    }
  }

  /** The first Listen stored under an address stays: resolve never replaces one,
      raised or not. */
  lemma {:induction false} ResolveKeeps(v: NrtView, rs: seq<Route>)
    ensures forall a :: a in v ==> a in ResolveV(v, rs).view && ResolveV(v, rs).view[a] == v[a]
    decreases |rs|
  {
    if rs != [] {
      ResolveKeeps(v, rs[..|rs| - 1]);
    }
  }

  /** Resolve keeps every key equal to the address of its Listen. */
  lemma {:induction false} ResolveKeyed(v: NrtView, rs: seq<Route>)
    requires Keyed(v)
    ensures Keyed(ResolveV(v, rs).view)
    decreases |rs|
  {
    if rs != [] {
      ResolveKeyed(v, rs[..|rs| - 1]);
    }
  }

  /** Two routes that resolve ask for the same Listen exactly when they carry the same
      ip and the same port text: `80` and `080` are different addresses. */
  lemma SameAddress(r1: Route, r2: Route)
    requires IsIPv4(r1.ip) && PortOk(TextPort(r1.port))
    requires IsIPv4(r2.ip) && PortOk(TextPort(r2.port))
    ensures RouteAddress(r1) == RouteAddress(r2) <==> r1.ip == r2.ip && r1.port == r2.port
  {
    PortOkText(TextPort(r1.port));
    PortOkText(TextPort(r2.port));
    AddressInjective(r1.ip, TextPort(r1.port), r2.ip, TextPort(r2.port));
  }

  /** A successful prefix extends by one step. */
  lemma ResolveSnoc(v: NrtView, rs: seq<Route>, i: nat, w: NrtView)
    requires i < |rs| && ResolveV(v, rs[..i]) == Resolved(w, Pass)
    ensures ResolveV(v, rs[..i + 1]) == ResolveStep(w, rs[i])
  {
    assert rs[..i + 1][..i] == rs[..i];
  }

  /** Once a prefix raises, the later routes change nothing. */
  lemma {:induction false} ResolveStops(v: NrtView, rs: seq<Route>, i: nat)
    requires i <= |rs|
    requires i < |rs| ==> ResolveV(v, rs[..i]).status.Raised?
    ensures ResolveV(v, rs) == ResolveV(v, rs[..i])
    decreases |rs| - i
  {
    if i < |rs| {
      var init := rs[..|rs| - 1];
      assert init[..i] == rs[..i];
      ResolveStops(v, init, i);
    } else {
      assert rs[..i] == rs;
    }
  }

  /** The port texts of the source's resolve test pass the range check. */
  lemma PortsOk()
    ensures PortOk(TextPort("80")) && PortOk(TextPort("8080"))
  {
    assert DigitsValue("80") == 80 by {
      assert "80"[..1] == "8";
    }
    assert DigitsValue("8080") == 8080 by {
      assert "8080"[..3] == "808" && "808"[..2] == "80" && "80"[..1] == "8";
    }
  }

  /** Routes that all name an IPv4 address and a port in range resolve, adding
      their addresses. */
  lemma AllPass(v: NrtView, rs: seq<Route>)
    requires forall i :: 0 <= i < |rs| ==> IsIPv4(rs[i].ip) && PortOk(TextPort(rs[i].port))
    ensures ResolveV(v, rs).status == Pass
    ensures ResolveV(v, rs).view.Keys == v.Keys + RouteAddresses(rs)
  {
    ResolvePass(v, rs);
    ResolveKeys(v, rs);
  }

  /** Routes on "0.0.0.0" with port 80 or 8080 all resolve. */
  lemma ZeroRoutesPass(rs: seq<Route>)
    requires forall i :: 0 <= i < |rs| ==> rs[i].ip == "0.0.0.0" && (rs[i].port == "80" || rs[i].port == "8080")
    ensures ResolveV(map[], rs).status == Pass
    ensures ResolveV(map[], rs).view.Keys == RouteAddresses(rs)
  {
    assert forall i :: 0 <= i < |rs| ==> IsIPv4(rs[i].ip) && PortOk(TextPort(rs[i].port)) by {
      IPv4Zero();
      PortsOk();
    }
    AllPass(map[], rs);
  }

  /** Routes that all ask for one address ask for that address only. */
  lemma OneAddress(rs: seq<Route>, a: string)
    requires rs != [] && forall i :: 0 <= i < |rs| ==> RouteAddress(rs[i]) == a
    ensures RouteAddresses(rs) == {a}
  {
    assert RouteAddress(rs[0]) in RouteAddresses(rs);
  }

  /** The addresses of the source's resolve test. */
  lemma ZeroAddresses()
    ensures Addresses.Address("0.0.0.0", TextPort("80")) == "0.0.0.0:80"
    ensures Addresses.Address("0.0.0.0", TextPort("8080")) == "0.0.0.0:8080"
  {
  }

  /** The directives of the source's resolve test: ports 80, 8080 and 80 on one ip
      give two Listens. */
  lemma TwoPortsTwoListens()
    ensures var r80 := Route("a", "0.0.0.0", "80", "a.b.c", "/");
      var r8080 := Route("a", "0.0.0.0", "8080", "a.b.c", "/");
      var b := ResolveV(map[], [r80, r8080, r80]);
      && b.status == Pass
      && b.view.Keys == {"0.0.0.0:80", "0.0.0.0:8080"}
  {
    var r80 := Route("a", "0.0.0.0", "80", "a.b.c", "/");
    var r8080 := Route("a", "0.0.0.0", "8080", "a.b.c", "/");
    var rs := [r80, r8080, r80];
    ZeroRoutesPass(rs);
    ZeroAddresses();
    assert RouteAddresses(rs) == {"0.0.0.0:80", "0.0.0.0:8080"} by {
      assert rs[0] == r80 && rs[1] == r8080 && rs[2] == r80;
    }
  }

  /** Two signatures of one address but different domains give a single Listen. */
  lemma OneAddressOneListen()
    ensures var r1 := Route("a", "0.0.0.0", "80", "a.b.c", "/");
      var r2 := Route("a", "0.0.0.0", "80", "aa.bb.cc", "/");
      ResolveV(map[], [r1, r2]).view.Keys == {"0.0.0.0:80"}
  {
    var r1 := Route("a", "0.0.0.0", "80", "a.b.c", "/");
    var r2 := Route("a", "0.0.0.0", "80", "aa.bb.cc", "/");
    var rs := [r1, r2];
    ZeroRoutesPass(rs);
    ZeroAddresses();
    OneAddress(rs, "0.0.0.0:80");
  }

  /** The ip and port of each Listen of a map, under the same keys. */
  function EndpointsOf(m: map<string, Listen>): (v: NrtView)
    ensures v.Keys == m.Keys
  {
    map a | a in m :: Endpoint(m[a].ip, m[a].port)
  }

  lemma EndpointsInsert(m: map<string, Listen>, a: string, l: Listen)
    ensures EndpointsOf(m[a := l]) == EndpointsOf(m)[a := Endpoint(l.ip, l.port)]
  {
  }

  class Nrt {
    var directives: seq<Value>
    var listen: map<string, Listen>

    /** Every stored directive passed the grammar and no signature is stored twice;
        every Listen passed its constructor and is stored under its own address. */
    ghost predicate Valid()
      reads this
    {
      && (forall i :: 0 <= i < |directives| ==> IsDirective(directives[i]))
      && NoDup(Sigs(directives))
      && forall a :: a in listen ==> listen[a].AddressOk() && listen[a].Address() == a
    }

    /** The Listens as values (their ip and port never change). */
    function Endpoints(): NrtView
      reads this
    {
      EndpointsOf(listen)
    }

    lemma ValidKeyed()
      requires Valid()
      ensures Keyed(Endpoints())
    {
    }

    /** A new Nrt has no directives and no Listens. */
    constructor ()
      ensures directives == [] && listen == map[]
      ensures Valid() && Endpoints() == map[]
    {
      directives := [];
      listen := map[];
    }

    /** The `directives` setter: the grammar's validation chain, then append unless
        the signature is already stored. */
    method SetDirective(d: Value) returns (st: Status)
      requires Valid()
      modifies this
      ensures Valid()
      ensures st == CheckDirective(d)
      ensures directives == OfferDirective(old(directives), d)
      ensures listen == old(listen)
    {
      OfferDirectiveSpec(directives, d);
      st := CheckDirective(d);
      if st == Pass {
        var i := 0;
        while i < |directives| && SignatureOf(directives[i]) != SignatureOf(d)
          invariant i <= |directives|
          invariant forall j :: 0 <= j < i ==> SignatureOf(directives[j]) != SignatureOf(d)
        {
          i := i + 1;
        }
        if i == |directives| {
          assert SignatureOf(d) !in Sigs(directives);
          directives := directives + [d];
        } else {
          assert Sigs(directives)[i] == SignatureOf(d);
        }
      }
    }

    /** The `listen` setter: None raises ValueError, a non-Listen raises TypeError; a
        Listen whose address is new is stored under it, otherwise the one already
        stored stays. */
    method SetListen(value: Arg<Listen>) returns (st: Status)
      requires Valid()
      requires value.Instance? ==> value.obj.AddressOk()
      modifies this
      ensures Valid()
      ensures st == RequireInstance(value)
      ensures value.Instance? && value.obj.Address() !in old(listen) ==>
        listen == old(listen)[value.obj.Address() := value.obj]
        && Endpoints() == old(Endpoints())[value.obj.Address() := Endpoint(value.obj.ip, value.obj.port)]
      ensures !(value.Instance? && value.obj.Address() !in old(listen)) ==> listen == old(listen)
      ensures directives == old(directives)
    {
      st := RequireInstance(value);
      if st == Pass {
        var a := value.obj.Address();
        if a !in listen {
          EndpointsInsert(listen, a, value.obj);
          listen := listen[a := value.obj];
        }
      }
    }

    /** One iteration of `resolve`: build the Listen for the route and offer it to
        the `listen` setter. */
    method ResolveOne(r: Route) returns (st: Status)
      requires Valid()
      modifies this
      ensures Valid()
      ensures Resolved(Endpoints(), st) == ResolveStep(old(Endpoints()), r)
      ensures directives == old(directives)
      ensures forall a :: a in old(listen) ==> a in listen && listen[a] == old(listen)[a]
      ensures forall a :: a in listen && a !in old(listen) ==>
        fresh(listen[a]) && listen[a].directives == [] && listen[a].server_names == map[]
        && listen[a].Valid() && fresh(listen[a].Repr)
    {
      var made := NewListen(Str(r.ip), Str(r.port));
      if made.Err? {
        st := Raised(made.error);
      } else {
        assert RouteAddress(r) == made.value.Address();
        st := SetListen(Instance(made.value));
      }
    }

    /** `resolve`: every stored directive, in order, gives a Listen with the ip and
        the port text of its signature, stored unless its address is a key already;
        the first constructor that raises stops the loop. */
    method Resolve() returns (st: Status)
      requires Valid()
      modifies this
      ensures Valid()
      ensures Resolved(Endpoints(), st) == ResolveV(old(Endpoints()), RoutesOf(directives))
      ensures directives == old(directives)
      ensures forall a :: a in old(listen) ==> a in listen && listen[a] == old(listen)[a]
      ensures forall a :: a in listen && a !in old(listen) ==>
        fresh(listen[a]) && listen[a].directives == [] && listen[a].server_names == map[]
        && listen[a].Valid() && fresh(listen[a].Repr)
    {
      var routes := RoutesOf(directives);
      ghost var e0 := Endpoints();
      var i := 0;
      st := Pass;
      while i < |directives| && st == Pass
        invariant 0 <= i <= |directives|
        invariant Valid()
        invariant directives == old(directives)
        invariant Resolved(Endpoints(), st) == ResolveV(e0, routes[..i])
        invariant forall a :: a in old(listen) ==> a in listen && listen[a] == old(listen)[a]
        invariant forall a :: a in listen && a !in old(listen) ==>
          fresh(listen[a]) && listen[a].directives == [] && listen[a].server_names == map[]
          && listen[a].Valid() && fresh(listen[a].Repr)
      {
        ResolveSnoc(e0, routes, i, Endpoints());
        st := ResolveOne(routes[i]);
        i := i + 1;
      }
      ResolveStops(e0, routes, i);
    }

    /** `export` is not implemented. */
    method Export() returns (st: Status)
      ensures st == Raised(NotImplementedError)
    {
      st := Raised(NotImplementedError);
    }

    /** `is_valid` is not implemented. */
    method IsValid() returns (st: Status)
      ensures st == Raised(NotImplementedError)
    {
      st := Raised(NotImplementedError);
    }
  }
}
