/** The passes by which links follow the cluster policy, cmd/service-controller/policy_controller.go. */
module Policy {
  import opened Prelude

  // ---- Incoming links ------------------------------------------------------------------------

  datatype Role = InterRouter | Edge | Normal

  datatype RouterOptions = RouterOptions(maxFrameSize: int, maxSessionFrames: int, disableMutualTLS: bool)

  datatype Listener = Listener(
    name: string,
    role: Role,
    port: int,
    maxFrameSize: int,
    maxSessionFrames: int,
    authenticatePeer: bool)

  type Listeners = map<string, Listener>

  const INTERIOR := "interior-listener"
  const EDGE := "edge-listener"

  function NewListener(name: string, options: RouterOptions): Listener {
    if name == INTERIOR then
      Listener(name, InterRouter, 55671, options.maxFrameSize, options.maxSessionFrames, !options.disableMutualTLS)
    else
      Listener(name, Edge, 45671, options.maxFrameSize, options.maxSessionFrames, !options.disableMutualTLS)
  }

  /** Routers elsewhere can link to this one. */
  predicate Open(listeners: Listeners) {
    INTERIOR in listeners && EDGE in listeners
  }

  predicate Closed(listeners: Listeners) {
    INTERIOR !in listeners && EDGE !in listeners
  }

  /** What one pass asks of the world: the policy's answer and the site's options, either of which
      may fail to be read, whether the router configuration can be read, whether an update is accepted,
      and whether the router then restarts. */
  datatype Pass = Pass(
    allowed: Option<bool>,
    readable: bool,
    options: Option<RouterOptions>,
    accepted: bool,
    restarted: bool) {
    predicate ErrorFree(edge: bool) {
      allowed.Some? && readable && (edge || (options.Some? && accepted))
    }
  }

  /** The listeners after a pass: only a change of both is ever written. */
  function After(edge: bool, listeners: Listeners, pass: Pass): Listeners {
    if edge || !pass.ErrorFree(edge) then listeners
    else if pass.allowed.value && Closed(listeners) then
      listeners[INTERIOR := NewListener(INTERIOR, pass.options.value)][EDGE := NewListener(EDGE, pass.options.value)]
    else if !pass.allowed.value && Open(listeners) then listeners - {INTERIOR, EDGE}
    else listeners
  }

  /** The listeners that the router runs with: those it was last started with. */
  function Reloaded(edge: bool, listeners: Listeners, running: Listeners, pass: Pass): Listeners {
    if After(edge, listeners, pass) != listeners && pass.restarted then After(edge, listeners, pass) else running
  }

  class RouterConfigMap {
    const edge: bool
    var listeners: Listeners
    var running: Listeners
    var writes: nat

    constructor (edge: bool, listeners: Listeners)
      ensures this.edge == edge && this.listeners == running == listeners && writes == 0
    {
      this.edge, this.listeners, running, writes := edge, listeners, listeners, 0;
    }

    /** `interiorFirst` is the order in which the map of listeners is visited. */
    method ValidateIncomingLinkStateChanged(pass: Pass, interiorFirst: bool)
      modifies this
      ensures listeners == After(edge, old(listeners), pass)
      ensures running == Reloaded(edge, old(listeners), old(running), pass)
      ensures writes == old(writes) + if listeners != old(listeners) then 1 else 0
    {
      if pass.allowed.None? || !pass.readable {
        return;
      }
      var current := listeners;
      if edge || pass.options.None? {
        return;
      }
      var allowed, names := pass.allowed.value, if interiorFirst then [INTERIOR, EDGE] else [EDGE, INTERIOR];
      for i := 0 to 2
        invariant |names| == 2 && {names[0], names[1]} == {INTERIOR, EDGE} && names[0] != names[1]
        invariant unchanged(this)
        invariant forall k | 0 <= k < i :: names[k] in listeners <==> !allowed
        invariant forall n :: n !in names[..i] ==> (n in current <==> n in listeners)
        invariant current == Visited(listeners, names, i, allowed, pass.options.value)
      {
        var name := names[i];
        if (name in current) == allowed {
          return;
        }
        if allowed {
          current := current[name := NewListener(name, pass.options.value)];
        } else {
          current := current - {name};
        }
      }
      BothVisited(listeners, names, allowed, pass.options.value);
      if pass.accepted {
        listeners, writes := current, writes + 1;
        if pass.restarted {
          running := current;
        }
      }
    }
  }

  /** The listeners in memory after the loop has visited `n` names without returning. */
  function Visited(listeners: Listeners, names: seq<string>, n: nat, allowed: bool, options: RouterOptions): Listeners
    requires n <= |names|
  {
    if n == 0 then listeners
    else
      var before, name := Visited(listeners, names, n - 1, allowed, options), names[n - 1];
      if allowed then before[name := NewListener(name, options)] else before - {name}
  }

  lemma BothVisited(listeners: Listeners, names: seq<string>, allowed: bool, options: RouterOptions)
    requires |names| == 2 && {names[0], names[1]} == {INTERIOR, EDGE} && names[0] != names[1]
    requires if allowed then Closed(listeners) else Open(listeners)
    ensures Visited(listeners, names, 2, allowed, options) ==
              After(false, listeners, Pass(Some(allowed), true, Some(options), true, true))
    ensures Visited(listeners, names, 2, allowed, options) != listeners
  {
    var visited := Visited(listeners, names, 2, allowed, options);
    var once := Visited(listeners, names, 1, allowed, options);
    assert names[0] in {INTERIOR, EDGE} && names[1] in {INTERIOR, EDGE};
    assert Visited(listeners, names, 0, allowed, options) == listeners;
    if allowed {
      assert visited == once[names[1] := NewListener(names[1], options)];
      assert names[1] in visited && names[1] !in listeners;
    } else {
      assert visited == once - {names[1]};
      assert names[1] !in visited && names[1] in listeners;
      assert visited == listeners - {names[0], names[1]};
    }
  }

  function Passes(edge: bool, listeners: Listeners, passes: seq<Pass>): Listeners {
    if passes == [] then listeners
    else After(edge, Passes(edge, listeners, passes[..|passes| - 1]), passes[|passes| - 1])
  }

  predicate BothOrNeither(listeners: Listeners) {
    Open(listeners) || Closed(listeners)
  }

  /** Over any run of passes, with any policies and failures, both-or-neither is neither lost nor gained. */
  lemma {:induction false} PassesKeepBothOrNeither(edge: bool, listeners: Listeners, passes: seq<Pass>)
    ensures BothOrNeither(Passes(edge, listeners, passes)) <==> BothOrNeither(listeners)
    ensures !BothOrNeither(listeners) ==> Passes(edge, listeners, passes) == listeners
    ensures forall n | n !in {INTERIOR, EDGE} ::
              (n in Passes(edge, listeners, passes) <==> n in listeners)
                  && (n in listeners ==> Passes(edge, listeners, passes)[n] == listeners[n])
  {
    if passes != [] {
      PassesKeepBothOrNeither(edge, listeners, passes[..|passes| - 1]);
    }
  }

  /** After a run that ends with an error-free pass on a router that is not an edge, links are open if
      allowed and closed if not, for both answers exactly when the run began with both or neither. */
  lemma ListenersFollowPolicyExactlyWhen(listeners: Listeners, passes: seq<Pass>, pass: Pass)
    requires pass.ErrorFree(false)
    ensures var last := Passes(false, listeners, passes + [pass]);
            (if pass.allowed.value then Open(last) else Closed(last)) <==> BothOrNeither(listeners)
  {
    var all := passes + [pass];
    assert all[..|all| - 1] == passes;
    PassesKeepBothOrNeither(false, listeners, passes);
    PassesKeepBothOrNeither(false, listeners, all);
  }

  /** A listener of routers elsewhere: interior ones at port 55671, edges at 45671, with the site's frame
      settings, asking for a certificate unless mutual TLS is off. */
  ghost predicate IsListener(l: Listener, interior: bool, options: RouterOptions) {
    && l.name == (if interior then "interior-listener" else "edge-listener")
    && (interior ==> l.role == InterRouter && l.port == 55671) && (!interior ==> l.role == Edge && l.port == 45671)
    && l.maxFrameSize == options.maxFrameSize && l.maxSessionFrames == options.maxSessionFrames
    && (l.authenticatePeer <==> !options.disableMutualTLS)
  }

  /** What the last pass that opened links says about the listeners. */
  ghost predicate AsOpened(listeners: Listeners, options: RouterOptions) {
    Open(listeners) && IsListener(listeners[INTERIOR], true, options) && IsListener(listeners[EDGE], false, options)
  }

  /** A pass that opens links makes both listeners, with the options read in that pass; they stay as they
      are over any further passes that find links allowed. */
  lemma {:induction false} OpenedListenersStay(listeners: Listeners, pass: Pass, more: seq<Pass>)
    requires Closed(listeners) && pass.ErrorFree(false) && pass.allowed.value
    requires forall p <- more :: p.allowed.Some? ==> p.allowed.value
    ensures AsOpened(Passes(false, listeners, [pass] + more), pass.options.value)
  {
    var n := |more|;
    assert [pass][..0] == [];
    if n == 0 {
      assert [pass] + more == [pass];
    } else {
      assert more[n - 1] in more && forall p <- more[..n - 1] :: p in more;
      OpenedListenersStay(listeners, pass, more[..n - 1]);
      assert ([pass] + more)[..n] == [pass] + more[..n - 1];
    }
  }

  // ---- The running router --------------------------------------------------------------------

  /** The listeners of a router that started with `listeners`, after these passes. */
  function Running(edge: bool, listeners: Listeners, passes: seq<Pass>): Listeners {
    if passes == [] then listeners
    else
      var before, pass := passes[..|passes| - 1], passes[|passes| - 1];
      Reloaded(edge, Passes(edge, listeners, before), Running(edge, listeners, before), pass)
  }

  /** How many updates were written since the router was last restarted. */
  function Missed(edge: bool, listeners: Listeners, passes: seq<Pass>): nat {
    if passes == [] then 0
    else
      var before, pass := passes[..|passes| - 1], passes[|passes| - 1];
      if Passes(edge, listeners, passes) == Passes(edge, listeners, before) then Missed(edge, listeners, before)
      else if pass.restarted then 0
      else Missed(edge, listeners, before) + 1
  }

  predicate Obeys(listeners: Listeners, allowed: bool) {
    if allowed then Open(listeners) else Closed(listeners)
  }

  lemma {:induction false} RunningIsBehind(edge: bool, listeners: Listeners, passes: seq<Pass>)
    requires BothOrNeither(listeners)
    ensures BothOrNeither(Running(edge, listeners, passes))
    ensures (Open(Running(edge, listeners, passes)) <==> Open(Passes(edge, listeners, passes)))
            <==> Missed(edge, listeners, passes) % 2 == 0
  {
    if passes != [] {
      RunningIsBehind(edge, listeners, passes[..|passes| - 1]);
      PassesKeepBothOrNeither(edge, listeners, passes[..|passes| - 1]);
      PassesKeepBothOrNeither(edge, listeners, passes);
    }
  }

  /** After a run that ends with an error-free pass the stored listeners obey the policy; the router obeys
      it if and only if an even number of updates was written since it was last restarted. */
  lemma RouterObeysPolicyExactlyWhen(listeners: Listeners, passes: seq<Pass>, pass: Pass)
    requires BothOrNeither(listeners) && pass.ErrorFree(false)
    ensures var all := passes + [pass];
            && Obeys(Passes(false, listeners, all), pass.allowed.value)
            && (Obeys(Running(false, listeners, all), pass.allowed.value) <==> Missed(false, listeners, all) % 2 == 0)
  {
    ListenersFollowPolicyExactlyWhen(listeners, passes, pass);
    RunningIsBehind(false, listeners, passes + [pass]);
  }

  /** A restart that failed is not tried again: while the policy's answer stays, no pass writes anything,
      so none restarts the router. */
  lemma {:induction false} FailedRestartIsNotMadeUpFor(edge: bool, listeners: Listeners, passes: seq<Pass>,
                                                       more: seq<Pass>, allowed: bool)
    requires Obeys(Passes(edge, listeners, passes), allowed)
    requires forall p <- more :: p.allowed.Some? ==> p.allowed.value == allowed
    ensures Passes(edge, listeners, passes + more) == Passes(edge, listeners, passes)
    ensures Running(edge, listeners, passes + more) == Running(edge, listeners, passes)
  {
    if more == [] {
      assert passes + more == passes;
    } else {
      var n := |more| - 1;
      assert more[n] in more && forall p <- more[..n] :: p in more;
      FailedRestartIsNotMadeUpFor(edge, listeners, passes, more[..n], allowed);
      assert (passes + more)[..|passes + more| - 1] == passes + more[..n];
    }
  }

  // ---- Outgoing links ------------------------------------------------------------------------

  type Labels = map<string, string>

  const DISABLED := "skupper.io/disabled"

  /** The texts that `strconv.ParseBool` takes for true; all others, also malformed ones, count as false here. */
  const TRUTHS := {"1", "t", "T", "TRUE", "true", "True"}

  predicate Disabled(labels: Labels) {
    DISABLED in labels && labels[DISABLED] in TRUTHS
  }

  datatype Link = Link(name: string, url: string)

  /** The labels a link's secret should have. */
  function Relabelled(labels: Labels, allowed: bool): Labels {
    if allowed != Disabled(labels) then labels
    else if allowed then labels - {DISABLED}
    else labels[DISABLED := "true"]
  }

  lemma RelabelledIsExact(labels: Labels, allowed: bool)
    ensures Disabled(Relabelled(labels, allowed)) <==> !allowed
    ensures Relabelled(Relabelled(labels, allowed), allowed) == Relabelled(labels, allowed)
    ensures Relabelled(labels, allowed) - {DISABLED} == labels - {DISABLED}
  {
    assert "true" in TRUTHS;
  }

  /** A link that is to be disabled has a label that says so, and one that is not has none that does. */
  lemma LabelTells(labels: Labels, allowed: bool)
    ensures var l := Relabelled(labels, allowed);
            && (!allowed ==>
                "skupper.io/disabled" in l && l["skupper.io/disabled"] in {"1", "t", "T", "TRUE", "true", "True"})
            && (!allowed && !Disabled(labels) ==> l == labels["skupper.io/disabled" := "true"])
            && (allowed ==>
                "skupper.io/disabled" in l ==> l["skupper.io/disabled"] !in {"1", "t", "T", "TRUE", "true", "True"})
  {
    RelabelledIsExact(labels, allowed);
  }

  /** Secrets that cannot be read, and secrets whose update is refused. */
  datatype Faults = Faults(unreadable: set<string>, refused: set<string>)

  type Secrets = map<string, Labels>

  function Settled(labels: Labels, link: Link, policy: string -> Option<bool>): Labels {
    var answer := policy(BeforeColon(link.url));
    if answer.Some? then Relabelled(labels, answer.value) else labels
  }

  /** The secrets after one link has been looked at. */
  function LookAt(secrets: Secrets, link: Link, policy: string -> Option<bool>): Secrets {
    if link.name in secrets then secrets[link.name := Settled(secrets[link.name], link, policy)] else secrets
  }

  function Looked(secrets: Secrets, links: seq<Link>, policy: string -> Option<bool>, n: nat): Secrets
    requires n <= |links|
  {
    if n == 0 then secrets else LookAt(Looked(secrets, links, policy, n - 1), links[n - 1], policy)
  }

  /** The pass stops at this link. */
  predicate Stops(secrets: Secrets, link: Link, policy: string -> Option<bool>, faults: Faults) {
    || link.name in faults.unreadable || link.name !in secrets || policy(BeforeColon(link.url)).None?
    || (link.name in faults.refused && LookAt(secrets, link, policy) != secrets)
  }

  ghost predicate DistinctNames(links: seq<Link>) {
    forall i, j | 0 <= i < j < |links| :: links[i].name != links[j].name
  }

  class SecretStore {
    var secrets: Secrets
    var writes: nat

    constructor (secrets: Secrets)
      ensures this.secrets == secrets && writes == 0
    {
      this.secrets, writes := secrets, 0;
    }

    /** One iteration of the loop over the links. */
    method LookAtLink(link: Link, policy: string -> Option<bool>, faults: Faults) returns (stopped: bool)
      modifies this
      ensures stopped <==> Stops(old(secrets), link, policy, faults)
      ensures secrets == if stopped then old(secrets) else LookAt(old(secrets), link, policy)
      ensures writes == old(writes) + if secrets != old(secrets) then 1 else 0
    {
      if link.name in faults.unreadable || link.name !in secrets {
        return true;
      }
      var labels, disabled := secrets[link.name], false;
      if DISABLED in labels {
        disabled := labels[DISABLED] in TRUTHS;
      }
      var answer := policy(BeforeColon(link.url));
      if answer.None? {
        return true;
      }
      if answer.value != disabled {
        assert secrets[link.name := labels] == secrets;
        return false;
      }
      if answer.value {
        labels := labels - {DISABLED};
      } else {
        labels := labels[DISABLED := "true"];
      }
      ChangeShows(secrets, link, policy);
      if link.name in faults.refused {
        return true;
      }
      secrets, writes := secrets[link.name := labels], writes + 1;
      return false;
    }

    /** `n` links were looked at before the pass ended. */
    method ValidateOutgoingLinkStateChanged(links: seq<Link>, policy: string -> Option<bool>, faults: Faults)
        returns (n: nat)
      requires DistinctNames(links)
      modifies this
      ensures n <= |links| && secrets == Looked(old(secrets), links, policy, n)
      ensures forall i | 0 <= i < n :: !Stops(old(secrets), links[i], policy, faults)
      ensures n < |links| ==> Stops(old(secrets), links[n], policy, faults)
      ensures writes == old(writes) <==> secrets == old(secrets)
    {
      n := 0;
      while n < |links|
        invariant n <= |links| && secrets == Looked(old(secrets), links, policy, n)
        invariant forall i | 0 <= i < n :: !Stops(old(secrets), links[i], policy, faults)
        invariant writes >= old(writes) && (writes == old(writes) <==> secrets == old(secrets))
      {
        NextLink(old(secrets), links, policy, faults, n);
        var stopped := LookAtLink(links[n], policy, faults);
        if stopped {
          return;
        }
        n := n + 1;
      }
    }
  }

  lemma StopsAlike(before: Secrets, now: Secrets, link: Link, policy: string -> Option<bool>, faults: Faults)
    requires link.name in before <==> link.name in now
    requires link.name in before ==> before[link.name] == now[link.name]
    ensures Stops(before, link, policy, faults) <==> Stops(now, link, policy, faults)
  {
    SameExactlyWhen(before, link, policy);
    SameExactlyWhen(now, link, policy);
  }

  lemma SameExactlyWhen(secrets: Secrets, link: Link, policy: string -> Option<bool>)
    ensures LookAt(secrets, link, policy) == secrets <==>
            (link.name in secrets ==> Settled(secrets[link.name], link, policy) == secrets[link.name])
  {
    if link.name in secrets {
      assert LookAt(secrets, link, policy)[link.name] == Settled(secrets[link.name], link, policy);
      if Settled(secrets[link.name], link, policy) == secrets[link.name] {
        assert LookAt(secrets, link, policy) == secrets;
      }
    }
  }

  lemma ChangeShows(secrets: Secrets, link: Link, policy: string -> Option<bool>)
    requires link.name in secrets && policy(BeforeColon(link.url)) == Some(Disabled(secrets[link.name]))
    ensures LookAt(secrets, link, policy) != secrets
  {
    RelabelledIsExact(secrets[link.name], Disabled(secrets[link.name]));
    assert LookAt(secrets, link, policy)[link.name] != secrets[link.name];
  }

  lemma DiffersStill(before: Secrets, now: Secrets, link: Link, policy: string -> Option<bool>)
    requires link.name in before <==> link.name in now
    requires link.name in before ==> before[link.name] == now[link.name]
    ensures LookAt(now, link, policy) != now ==> LookAt(now, link, policy) != before
  {
    SameExactlyWhen(now, link, policy);
    if LookAt(now, link, policy) != now {
      assert LookAt(now, link, policy)[link.name] != before[link.name];
    }
  }

  /** Looking at links with distinct names changes each link's secret once and no other. */
  lemma {:induction false} LookedAt(secrets: Secrets, links: seq<Link>, policy: string -> Option<bool>, n: nat, i: nat)
    requires DistinctNames(links) && n <= |links| && i < |links|
    ensures var name, after := links[i].name, Looked(secrets, links, policy, n);
            && (name in after <==> name in secrets)
            && (name in secrets ==>
                after[name] == if i < n then Settled(secrets[name], links[i], policy) else secrets[name])
  {
    if n > 0 {
      LookedAt(secrets, links, policy, n - 1, i);
    }
  }

  lemma NextLink(secrets: Secrets, links: seq<Link>, policy: string -> Option<bool>, faults: Faults, n: nat)
    requires DistinctNames(links) && n < |links|
    ensures var now := Looked(secrets, links, policy, n);
            && (Stops(secrets, links[n], policy, faults) <==> Stops(now, links[n], policy, faults))
            && (LookAt(now, links[n], policy) != now ==> LookAt(now, links[n], policy) != secrets)
  {
    var now := Looked(secrets, links, policy, n);
    LookedAt(secrets, links, policy, n, n);
    StopsAlike(secrets, now, links[n], policy, faults);
    DiffersStill(secrets, now, links[n], policy);
  }

  lemma {:induction false} LookedElsewhere(secrets: Secrets, links: seq<Link>, policy: string -> Option<bool>, n: nat,
                                           name: string)
    requires n <= |links| && forall i | 0 <= i < n :: links[i].name != name
    ensures var after := Looked(secrets, links, policy, n);
            (name in after <==> name in secrets) && (name in secrets ==> after[name] == secrets[name])
  {
    if n > 0 {
      LookedElsewhere(secrets, links, policy, n - 1, name);
    }
  }

  /** After a pass that looked at every link, a link is disabled exactly when its host is not allowed,
      nothing but that label has changed, and a second pass changes nothing and so writes nothing. */
  lemma OutgoingPassIsExact(secrets: Secrets, links: seq<Link>, policy: string -> Option<bool>)
    requires DistinctNames(links)
    requires forall i | 0 <= i < |links| :: links[i].name in secrets && policy(BeforeColon(links[i].url)).Some?
    ensures var after := Looked(secrets, links, policy, |links|);
            && after.Keys == secrets.Keys
            && (forall i | 0 <= i < |links| :: Disabled(after[links[i].name]) <==>
                policy(BeforeColon(links[i].url)) == Some(false))
            && (forall name <- secrets :: after[name] - {DISABLED} == secrets[name] - {DISABLED})
            && (forall name <- secrets :: (forall i | 0 <= i < |links| :: links[i].name != name) ==>
                after[name] == secrets[name])
            && Looked(after, links, policy, |links|) == after
  {
    var after := Looked(secrets, links, policy, |links|);
    forall name ensures name in after <==> name in secrets
                ensures name in secrets ==> after[name] - {DISABLED} == secrets[name] - {DISABLED}
                ensures (forall i | 0 <= i < |links| :: links[i].name != name) && name in secrets ==>
                          after[name] == secrets[name]
    {
      NothingElse(secrets, links, policy, name);
    }
    forall i | 0 <= i < |links|
      ensures Disabled(after[links[i].name]) <==> policy(BeforeColon(links[i].url)) == Some(false) {
      LookedAt(secrets, links, policy, |links|, i);
      RelabelledIsExact(secrets[links[i].name], policy(BeforeColon(links[i].url)).value);
    }
    forall i | 0 <= i < |links| ensures LookAt(after, links[i], policy) == after {
      LookedAt(secrets, links, policy, |links|, i);
      RelabelledIsExact(secrets[links[i].name], policy(BeforeColon(links[i].url)).value);
      SameExactlyWhen(after, links[i], policy);
    }
    SettledStays(after, links, policy, |links|);
  }

  lemma NothingElse(secrets: Secrets, links: seq<Link>, policy: string -> Option<bool>, name: string)
    requires DistinctNames(links)
    ensures var after := Looked(secrets, links, policy, |links|);
            && (name in after <==> name in secrets)
            && (name in secrets ==> after[name] - {DISABLED} == secrets[name] - {DISABLED})
            && ((forall i | 0 <= i < |links| :: links[i].name != name) && name in secrets ==>
                after[name] == secrets[name])
  {
    if i :| 0 <= i < |links| && links[i].name == name {
      LookedAt(secrets, links, policy, |links|, i);
      if name in secrets && policy(BeforeColon(links[i].url)).Some? {
        RelabelledIsExact(secrets[name], policy(BeforeColon(links[i].url)).value);
      }
    } else {
      LookedElsewhere(secrets, links, policy, |links|, name);
    }
  }

  lemma {:induction false} SettledStays(secrets: Secrets, links: seq<Link>, policy: string -> Option<bool>, n: nat)
    requires n <= |links| && forall i | 0 <= i < |links| :: LookAt(secrets, links[i], policy) == secrets
    ensures Looked(secrets, links, policy, n) == secrets
  {
    if n > 0 {
      SettledStays(secrets, links, policy, n - 1);
    }
  }
}
