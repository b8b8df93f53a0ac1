/** The second level of the resolution tree: a Listen is an `ip:port` address with
    the directives routed to it and its ServerNames keyed by domain. */
module Listens {
  import opened PyValues
  import opened Lists
  import opened Text
  import opened Signatures
  import opened Addresses
  import opened Locations
  import opened TreeSpec
  import opened ServerNames

  /** The fields of the stored directives, in order. */
  function RoutesOf(ds: seq<Value>): (rs: seq<Route>)
    requires forall i :: 0 <= i < |ds| ==> IsDirective(ds[i])
    ensures |rs| == |ds| && forall i :: 0 <= i < |ds| ==> rs[i] == RouteOf(ds[i])
  {
    seq(|ds|, i requires 0 <= i < |ds| && IsDirective(ds[i]) => RouteOf(ds[i]))
  }

  class Listen {
    const ip: string
    const port: Port
    var directives: seq<Value>
    var server_names: map<string, ServerName>

    /** The constructor's checks passed. */
    predicate AddressOk()
    {
      IsIPv4(ip) && PortOk(port)
    }

    /** The `address` property: ip, a colon and the port as text. For a constructed
        Listen it splits back into the ip and the port text. */
    function Address(): (a: string)
      ensures AddressOk() ==> Split(a, ':') == [ip, PortText(port)]
    {
      if AddressOk() then PortOkText(port); AddressParts(ip, port); Addresses.Address(ip, port)
      else Addresses.Address(ip, port)
    }

    /** The objects this Listen owns: itself, its ServerNames and their Locations. */
    ghost var Repr: set<object>

    /** Every ServerName and every Location it holds belong to Repr. */
    ghost predicate Framed()
      reads this, Repr
    {
      this in Repr && forall k :: k in server_names ==> server_names[k] in Repr && server_names[k].LocSet() <= Repr
    }

    /** The constructor's checks passed, every stored directive passed the grammar
        and none is stored twice, each ServerName is stored under its own domain and
        satisfies its invariant, and no Location is shared by two ServerNames. */
    ghost predicate Valid()
      reads this, Repr
    {
      && Framed()
      && AddressOk()
      && (forall i :: 0 <= i < |directives| ==> IsDirective(directives[i]))
      && NoDup(directives)
      && (forall k :: k in server_names ==> server_names[k].domain == k && server_names[k].Valid())
      && (forall k1, k2 :: k1 in server_names && k2 in server_names && k1 != k2
            ==> server_names[k1].LocSet() !! server_names[k2].LocSet())
    }

    /** The ServerNames as values. */
    function View(): ListenView
      reads this, Repr
      requires Framed()
    {
      map k | k in server_names :: server_names[k].View()
    }

    lemma ValidView()
      requires Valid()
      ensures ViewWF(View())
    {
      forall k | k in server_names ensures ServerWF(View()[k]) {
        server_names[k].ValidView();
      }
    }

    /** When only the ServerName under d may have changed (or been added), the view
        changes only at d. */
    twostate lemma ViewFrame(d: string)
      requires old(Framed()) && Framed() && d in server_names
      requires server_names.Keys == old(server_names).Keys + {d}
      requires forall k :: k in old(server_names) && k != d ==>
        server_names[k] == old(server_names)[k] && unchanged(server_names[k]) && unchanged(server_names[k].LocSet())
      ensures View() == old(View())[d := server_names[d].View()]
    {
      ghost var w := View();
      ghost var v := old(View());
      forall k | k in v && k != d ensures w[k] == v[k] {
        assert server_names[k].View() == old(server_names[k].View());
      }
      UpdateAt(v, w, d);
    }

    /** A new Listen has its address and no directives or ServerNames. */
    constructor (ip: string, port: Port)
      requires IsIPv4(ip) && PortOk(port)
      ensures this.ip == ip && this.port == port
      ensures directives == [] && server_names == map[]
      ensures Valid() && fresh(Repr) && View() == map[]
    {
      this.ip := ip;
      this.port := port;
      directives := [];
      server_names := map[];
      Repr := {this};
    }

    /** The `directives` setter: validate against the grammar, then append unless an
        equal directive is already stored. */
    method SetDirective(d: Value) returns (st: Status)
      requires Valid()
      modifies this
      ensures Valid()
      ensures st == CheckDirective(d)
      ensures directives == if st == Pass then AppendIfAbsent(old(directives), d) else old(directives)
      ensures server_names == old(server_names) && Repr == old(Repr)
    {
      st := CheckDirective(d);
      if st == Pass && d !in directives {
        directives := directives + [d];
      }
    }

    /** The `server_names` setter: None raises ValueError, a non-ServerName raises
        TypeError; a ServerName whose domain is new is stored under it, otherwise
        the one already stored stays. A new ServerName brings Locations of its own. */
    method SetServerNames(value: Arg<ServerName>) returns (st: Status)
      requires Valid()
      requires value.Instance? ==> value.obj.Valid()
      requires value.Instance? && value.obj.domain !in server_names ==> value.obj.LocSet() !! Repr
      modifies this
      ensures Valid()
      ensures st == RequireInstance(value)
      ensures server_names == if value.Instance? && value.obj.domain !in old(server_names)
        then old(server_names)[value.obj.domain := value.obj] else old(server_names)
      ensures Repr == if value.Instance? && value.obj.domain !in old(server_names)
        then old(Repr) + {value.obj} + value.obj.LocSet() else old(Repr)
      ensures directives == old(directives)
      ensures View() == if value.Instance? && value.obj.domain !in old(server_names)
        then old(View())[value.obj.domain := value.obj.View()] else old(View())
    {
      st := RequireInstance(value);
      if st == Pass && value.obj.domain !in server_names {
        server_names := server_names[value.obj.domain := value.obj];
        Repr := Repr + {value.obj} + value.obj.LocSet();
        Inserted(value.obj);
      }
    }

    /** Storing a valid ServerName under its new domain, with Locations of its own,
        keeps the invariant and adds exactly that entry to the view. */
    twostate lemma Inserted(sn: ServerName)
      requires old(Valid()) && sn.Valid() && sn.domain !in old(server_names)
      requires server_names == old(server_names)[sn.domain := sn] && directives == old(directives)
      requires Repr == old(Repr) + {sn} + sn.LocSet() && sn.LocSet() !! old(Repr)
      requires forall k :: k in server_names ==> unchanged(server_names[k]) && unchanged(server_names[k].LocSet())
      ensures Valid()
      ensures View() == old(View())[sn.domain := sn.View()]
    {
      forall k | k in old(server_names) ensures server_names[k].LocSet() <= old(Repr) {
      }
      ViewFrame(sn.domain);
    }

    /** Makes sure a ServerName for the domain is stored, creating an empty one. */
    method EnsureServerName(domain: string)
      requires Valid() && domain != ""
      modifies this
      ensures Valid()
      ensures domain in server_names
      ensures View() == if domain in old(View()) then old(View()) else old(View())[domain := []]
      ensures old(Repr) <= Repr && fresh(Repr - old(Repr))
      ensures directives == old(directives)
    {
      if domain !in server_names {
        ghost var v0 := View();
        var sn := new ServerName(domain);
        assert View() == v0 && sn.LocSet() == {} && sn.View() == [];
        var st := SetServerNames(Instance(sn));
      }
    }

    /** One iteration of `_build`: the route's ServerName (created when missing)
        absorbs the route's alias and path. */
    method Absorb(r: Route) returns (st: Status)
      requires Valid() && r.server != ""
      modifies Repr
      ensures Valid()
      ensures Built(View(), st) == BuildStep(old(View()), r)
      ensures directives == old(directives)
      ensures old(Repr) <= Repr && fresh(Repr - old(Repr))
    {
      ghost var v0 := View();
      EnsureServerName(r.server);
      ghost var mid := View();
      st := AbsorbInto(r);
      StepVia(v0, r, mid, View(), st);
    }

    /** The second half of an iteration of `_build`: the ServerName stored under the
        route's domain takes the directive; the other ServerNames stay as they are. */
    method AbsorbInto(r: Route) returns (st: Status)
      requires Valid() && r.server in server_names
      modifies Repr
      ensures Valid()
      ensures AbsorbedAt(old(View()), View(), r, st)
      ensures directives == old(directives)
      ensures old(Repr) <= Repr && fresh(Repr - old(Repr))
    {
      var sn := server_names[r.server];
      assert sn.LocSet() <= Repr;
      st := sn.AddDirective(r.alias, r.path);
      ghost var after := sn.View();
      Repr := Repr + sn.LocSet();
      Delivered(sn, r, st, after);
    }

    /** The postcondition of AbsorbInto from what AddDirective promises about sn. */
    twostate lemma Delivered(sn: ServerName, new r: Route, new st: Status, new after: ServerView)
      requires old(Valid()) && r.server in old(server_names) && old(server_names)[r.server] == sn
      requires server_names == old(server_names) && directives == old(directives)
      requires Repr == old(Repr) + sn.LocSet() && fresh(sn.LocSet() - old(sn.LocSet()))
      requires sn.Valid()
      requires forall o: object :: o in old(Repr) && o != this && o != sn && o !in old(sn.LocSet()) ==> unchanged(o)
      requires sn.View() == after && Absorbed(old(sn.View()), after, r.path, r.alias, st)
      ensures Valid()
      ensures AbsorbedAt(old(View()), View(), r, st)
    {
      assert old(View())[r.server] == old(sn.View());
      Untouched(sn);
      if st.Raised? {
        UpdateSame(old(View()), r.server, sn.View());
      }
    }

    /** What AddDirective on the ServerName sn leaves of the other ServerNames: they
        and their Locations are untouched, and keep their Locations apart from sn's. */
    twostate lemma Untouched(sn: ServerName)
      requires old(Valid()) && sn.domain in old(server_names) && old(server_names)[sn.domain] == sn
      requires server_names == old(server_names) && directives == old(directives)
      requires Repr == old(Repr) + sn.LocSet() && fresh(sn.LocSet() - old(sn.LocSet()))
      requires sn.Valid()
      requires forall o: object :: o in old(Repr) && o != this && o != sn && o !in old(sn.LocSet()) ==> unchanged(o)
      ensures Valid()
      ensures View() == old(View())[sn.domain := sn.View()]
    {
      forall k | k in server_names && k != sn.domain
        ensures unchanged(server_names[k]) && unchanged(server_names[k].LocSet())
        ensures server_names[k].LocSet() !! sn.LocSet()
      {
        var o := server_names[k];
        assert forall l :: l in o.LocSet() ==> l !in old(sn.LocSet()) && l in old(Repr);
      }
      ViewFrame(sn.domain);
    }

    /** `_build`: every stored directive, in order, reaches the ServerName of its
        domain; the first exception stops the loop. */
    method Build() returns (st: Status)
      requires Valid()
      modifies Repr
      ensures Valid()
      ensures Built(View(), st) == BuildV(old(View()), RoutesOf(directives))
      ensures directives == old(directives)
      ensures old(Repr) <= Repr && fresh(Repr - old(Repr))
    {
      var routes := RoutesOf(directives);
      ghost var v0 := View();
      var i := 0;
      st := Pass;
      while i < |directives| && st == Pass
        invariant 0 <= i <= |directives|
        invariant Valid()
        invariant directives == old(directives)
        invariant Built(View(), st) == BuildV(v0, routes[..i])
        invariant old(Repr) <= Repr && fresh(Repr - old(Repr))
      {
        BuildSnoc(v0, routes, i, View());
        st := Absorb(routes[i]);
        i := i + 1;
      }
      BuildStops(v0, routes, i);
    }

    /** The `is_valid` property: a loop over the ServerNames that stops at the first
        invalid one. */
    method IsValid() returns (b: bool)
      requires Valid()
      ensures b == ViewValid(View())
    {
      var keys := server_names.Keys;
      while keys != {}
        invariant keys <= server_names.Keys
        invariant forall k :: k in server_names && k !in keys ==> ServerValid(View()[k])
        decreases keys
      {
        var k :| k in keys;
        if !server_names[k].IsValid() {
          assert !ServerValid(View()[k]);
          return false;
        }
        keys := keys - {k};
      }
      return true;
    }
  }

  /** `Listen(ip=..., port=...)`, where an omitted keyword takes DefaultIp or
      DefaultPort: the constructor's checks decide whether an object is produced. */
  method NewListen(ip: Value, port: Value) returns (r: Result<Listen>)
    ensures r.Err? <==> CheckListen(ip, port).Raised?
    ensures r.Err? ==> r.error == CheckListen(ip, port).error
    ensures r.Ok? ==> fresh(r.value) && fresh(r.value.Repr) && r.value.Valid() && r.value.ip == ip.s && r.value.port == PortOf(port)
    ensures r.Ok? ==> r.value.directives == [] && r.value.server_names == map[]
  {
    var st := CheckListen(ip, port);
    if st.Raised? {
      return Err(st.error);
    }
    var l := new Listen(ip.s, PortOf(port));
    return Ok(l);
  }
}
