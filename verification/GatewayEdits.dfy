/** What bind, unbind, forward and unforward leave in the bridge maps of a gateway, call by call and over
    any series of calls: `gatewayBridgeEndpointUpdate` of client/gateway.go. */
module GatewayEdits {
  import opened Prelude
  import opened Gateway

  // ---- Names ---------------------------------------------------------------------------------

  lemma {:induction false} DigitsDiffer(m: nat, n: nat)
    requires Digits(m) == Digits(n)
    ensures m == n
  {
    var x, y := Digits(m), Digits(n);
    LastDigit(m);
    LastDigit(n);
    assert m % 10 == n % 10;
    if m < 10 || n < 10 {
      OneDigit(m);
      OneDigit(n);
    } else {
      assert Digits(m / 10) == x[..|x| - 1] == y[..|y| - 1] == Digits(n / 10);
      DigitsDiffer(m / 10, n / 10);
    }
  }

  lemma LastDigit(n: nat)
    ensures Digits(n) != [] && Digits(n)[|Digits(n)| - 1] == (n % 10) as char + '0'
    ensures Digits(n)[0] != '-'
  {
    if n >= 10 {
      LastDigit(n / 10);
      assert Digits(n)[0] == Digits(n / 10)[0];
    }
  }

  lemma OneDigit(n: nat)
    ensures |Digits(n)| == 1 <==> n < 10
  {
    if n >= 10 {
      LastDigit(n / 10);
    }
  }

  /** Different ports of an address have different names. */
  lemma NamesDiffer(address: string, p: int, q: int)
    requires BridgeName(address, p) == BridgeName(address, q)
    ensures p == q
  {
    var n := |address + ":"|;
    var x, y := BridgeName(address, p)[n..], BridgeName(address, q)[n..];
    assert x == if p < 0 then "-" + Digits(-p) else Digits(p);
    assert y == if q < 0 then "-" + Digits(-q) else Digits(q);
    if p < 0 && q < 0 {
      assert x[1..] == Digits(-p) && y[1..] == Digits(-q);
      DigitsDiffer(-p, -q);
    } else if p >= 0 && q >= 0 {
      DigitsDiffer(p, q);
    } else {
      LastDigit(if p >= 0 then p else q);
    }
  }

  // ---- One call ------------------------------------------------------------------------------

  /** The connectors or the listeners of TCP or HTTP. */
  function MapOf(bc: BridgeConfig, egress: bool, http: bool): Bridges {
    if http then (if egress then bc.httpConnectors else bc.httpListeners)
    else if egress then bc.tcpConnectors
    else bc.tcpListeners
  }

  ghost function At(m: Bridges, k: string): Option<Endpoint> {
    if k in m then Some(m[k]) else None
  }

  /** Round `i` of the call is about the bridge `k`, and no later one of the first `n` is. */
  ghost predicate LastNames(r: Request, n: nat, i: nat, k: string) {
    && i < n <= |r.servicePorts| && BridgeName(r.address, r.servicePorts[i]) == k
    && forall j | i < j < n :: BridgeName(r.address, r.servicePorts[j]) != k
  }

  ghost predicate Names(r: Request, n: nat, k: string) {
    n <= |r.servicePorts| && exists i :: 0 <= i < n && BridgeName(r.address, r.servicePorts[i]) == k
  }

  /** The bridge is the one that round `i` of a bind or forward is to make: named after the address and the
      service's port; for a bind with the given host and the given port, for a forward on the loopback or
      on every interface with the port picked; with the HTTP settings where the protocol is HTTP. */
  ghost predicate IsBridge(e: Endpoint, r: Request, i: nat, routerId: string)
    requires i < |r.servicePorts| && i < |r.ports|
  {
    && e.name == e.address == BridgeName(r.address, r.servicePorts[i]) && e.siteId == routerId && e.other == ""
    && (r.egress ==> e.host == r.host && e.port == Decimal(r.ports[i]))
    && (!r.egress ==> e.host == (if r.loopback then "127.0.0.1" else ""))
    && (!r.egress ==> i < |r.listen| && r.listen[i].Some? && e.port == Decimal(r.listen[i].value))
    && (e.http.None? <==> r.protocol == Tcp)
    && (r.protocol == Http ==> e.http.value.version == Version1)
    && (r.protocol == Http2 ==> e.http.value.version == Version2)
    && (e.http.Some? && r.egress ==> e.http.value.aggregation == "" && !e.http.value.eventChannel)
    && (e.http.Some? && !r.egress ==>
        e.http.value.aggregation == r.aggregate && e.http.value.eventChannel == r.eventChannel)
  }

  /** What a call makes of the entry `k` of the map it goes to. */
  ghost predicate Tells(r: Request, n: nat, k: string, before: Option<Endpoint>, after: Option<Endpoint>,
                        routerId: string)
    requires r.add ==> n <= |r.ports|
  {
    && (!Names(r, n, k) ==> after == before)
    && (!r.add && Names(r, n, k) ==> after == None)
    && (r.add ==> forall i | LastNames(r, n, i, k) :: after.Some? && IsBridge(after.value, r, i, routerId))
  }

  lemma {:induction false} EditedTells(m: Bridges, r: Request, n: nat, routerId: string, k: string)
    requires r.Answerable() && !r.Mismatched() && n <= r.Count() && (r.add ==> r.Picked(n)) && r.protocol != Unsupported
    ensures Tells(r, n, k, At(m, k), At(Edited(m, r, n, routerId), k), routerId)
  {
    if n > 0 {
      EditedTells(m, r, n - 1, routerId, k);
      if r.add {
        MadeBridge(r, n - 1, routerId);
      }
      TellsMore(r, n, k, At(m, k), At(Edited(m, r, n - 1, routerId), k), At(Edited(m, r, n, routerId), k), routerId);
    }
  }

  lemma MadeBridge(r: Request, i: nat, routerId: string)
    requires r.Answerable() && !r.Mismatched() && r.add && i < |r.ports| && r.Picked(i + 1) && r.protocol != Unsupported
    ensures IsBridge(NewEndpoint(r, i, routerId), r, i, routerId)
  {
  }

  lemma TellsMore(r: Request, n: nat, k: string, before: Option<Endpoint>, mid: Option<Endpoint>,
                  after: Option<Endpoint>, routerId: string)
    requires 0 < n <= |r.servicePorts| && (r.add ==> n <= |r.ports|) && Tells(r, n - 1, k, before, mid, routerId)
    requires BridgeName(r.address, r.servicePorts[n - 1]) != k ==> after == mid
    requires BridgeName(r.address, r.servicePorts[n - 1]) == k ==>
               if r.add then after.Some? && IsBridge(after.value, r, n - 1, routerId) else after == None
    ensures Tells(r, n, k, before, after, routerId)
  {
    assert Names(r, n, k) <==> Names(r, n - 1, k) || BridgeName(r.address, r.servicePorts[n - 1]) == k;
    forall i: nat | r.add && LastNames(r, n, i, k) ensures after.Some? && IsBridge(after.value, r, i, routerId) {
      if i < n - 1 {
        assert LastNames(r, n - 1, i, k);
      }
    }
  }

  /** The call goes to the connectors or listeners of TCP or HTTP, and is accepted. */
  ghost predicate Edits(r: Request, egress: bool, http: bool) {
    !r.Refused() && r.protocol != Unsupported && r.egress == egress && (r.protocol != Tcp) == http
  }

  /** When a call fails: a bind whose ports do not match the service's in number; a forward for which some
      listener gets no port; and, unless there is nothing to do, an unsupported protocol. */
  lemma FailsExactlyWhen(bc: BridgeConfig, r: Request, routerId: string)
    requires r.Answerable()
    ensures Update(bc, r, routerId).None? <==>
              || (r.add && r.egress && |r.servicePorts| != |r.ports|)
              || (r.add && !r.egress && exists i :: 0 <= i < |r.ports| && r.listen[i].None?)
              || (r.protocol == Unsupported && (if r.add then r.ports else r.servicePorts) != [])
  {
  }

  /** A call changes the entries it names, of the one map it goes to, and nothing else. */
  lemma UpdateTells(bc: BridgeConfig, r: Request, routerId: string, egress: bool, http: bool, k: string)
    requires r.Answerable() && Update(bc, r, routerId).Some?
    ensures var before := At(MapOf(bc, egress, http), k);
            var after := At(MapOf(Update(bc, r, routerId).value, egress, http), k);
            if Edits(r, egress, http) then Tells(r, r.Count(), k, before, after, routerId) else after == before
  {
    if r.protocol != Unsupported {
      EditedTells(MapOf(bc, r.egress, r.protocol != Tcp), r, r.Count(), routerId, k);
    }
  }

  /** A bind or forward makes, for each of the service's ports, the bridge it is to make. */
  lemma BindMakesBridges(bc: BridgeConfig, r: Request, routerId: string, i: nat)
    requires r.Answerable() && r.add && r.protocol != Unsupported && Update(bc, r, routerId).Some?
    requires i < |r.ports| && forall j | i < j < |r.ports| :: r.servicePorts[j] != r.servicePorts[i]
    ensures var m := MapOf(Update(bc, r, routerId).value, r.egress, r.protocol != Tcp);
            var k := BridgeName(r.address, r.servicePorts[i]);
            k in m && IsBridge(m[k], r, i, routerId)
  {
    var k := BridgeName(r.address, r.servicePorts[i]);
    forall j | i < j < |r.ports| ensures BridgeName(r.address, r.servicePorts[j]) != k {
      if BridgeName(r.address, r.servicePorts[j]) == k {
        NamesDiffer(r.address, r.servicePorts[j], r.servicePorts[i]);
      }
    }
    assert LastNames(r, r.Count(), i, k);
    UpdateTells(bc, r, routerId, r.egress, r.protocol != Tcp, k);
  }

  /** After an unbind or unforward none of the service's bridges is left. */
  lemma UnbindLeavesNone(bc: BridgeConfig, r: Request, routerId: string, i: nat)
    requires r.Answerable() && !r.add && r.protocol != Unsupported && i < |r.servicePorts|
    ensures Update(bc, r, routerId).Some?
    ensures var m := MapOf(Update(bc, r, routerId).value, r.egress, r.protocol != Tcp);
            BridgeName(r.address, r.servicePorts[i]) !in m
  {
    UpdateTells(bc, r, routerId, r.egress, r.protocol != Tcp, BridgeName(r.address, r.servicePorts[i]));
  }

  // ---- Any series of calls -------------------------------------------------------------------

  /** The call decides what is under `k` in that map. */
  ghost predicate Decides(r: Request, egress: bool, http: bool, k: string) {
    Edits(r, egress, http) && Names(r, r.Count(), k)
  }

  lemma {:induction false} UndecidedStays(bc: BridgeConfig, rs: seq<Request>, routerId: string, egress: bool,
                                          http: bool, k: string)
    requires forall r <- rs :: r.Answerable() && !Decides(r, egress, http, k)
    ensures At(MapOf(UpdateAll(bc, rs, routerId), egress, http), k) == At(MapOf(bc, egress, http), k)
    decreases rs
  {
    if rs != [] {
      assert rs[0] in rs && forall r <- rs[1..] :: r in rs;
      var next := Update(bc, rs[0], routerId);
      if next.Some? {
        UpdateTells(bc, rs[0], routerId, egress, http, k);
        UndecidedStays(next.value, rs[1..], routerId, egress, http, k);
      } else {
        UndecidedStays(bc, rs[1..], routerId, egress, http, k);
      }
    }
  }

  /** After any series of calls a name stands for what the last accepted call about it says: the bridge a
      bind or forward made for it, or nothing after an unbind or unforward. */
  lemma {:induction false} LastCallTells(bc: BridgeConfig, rs: seq<Request>, routerId: string, egress: bool, http: bool,
                                         k: string, n: nat)
    requires (forall r <- rs :: r.Answerable()) && n < |rs| && Decides(rs[n], egress, http, k)
    requires forall j | n < j < |rs| :: !Decides(rs[j], egress, http, k)
    ensures var after := At(MapOf(UpdateAll(bc, rs, routerId), egress, http), k);
            && (!rs[n].add ==> after == None)
            && (rs[n].add ==>
                && after.Some?
                && exists i :: LastNames(rs[n], rs[n].Count(), i, k) && IsBridge(after.value, rs[n], i, routerId))
    decreases rs
  {
    assert rs[0] in rs && forall r <- rs[1..] :: r in rs;
    var next := Update(bc, rs[0], routerId);
    var bc' := if next.Some? then next.value else bc;
    if n == 0 {
      UpdateTells(bc, rs[0], routerId, egress, http, k);
      forall r <- rs[1..] ensures !Decides(r, egress, http, k) {
        var j :| 0 <= j < |rs[1..]| && rs[1..][j] == r;
        assert rs[j + 1] == r;
      }
      UndecidedStays(bc', rs[1..], routerId, egress, http, k);
      if rs[0].add {
        var i := LastOfNames(rs[0], rs[0].Count(), k);
      }
    } else {
      LastCallTells(bc', rs[1..], routerId, egress, http, k, n - 1);
    }
  }

  lemma {:induction false} LastOfNames(r: Request, n: nat, k: string) returns (i: nat)
    requires Names(r, n, k)
    ensures LastNames(r, n, i, k)
  {
    if BridgeName(r.address, r.servicePorts[n - 1]) == k {
      i := n - 1;
    } else {
      i := LastOfNames(r, n - 1, k);
    }
  }
}
