/** Restarting only what a config change affects (src/gateway/runtime.rs). */
module Reload {
  import opened Basics

  datatype SocketAddr = SocketAddr(ip: string, port: Port)
  datatype BackendKind = WinDivert | Tun
  datatype DnsOptions = DnsOptions(listen: SocketAddr, fakeIpv4Range: string, fakeIpv6Range: string, recordTtl: nat)
  datatype Backend = Backend(kind: BackendKind, dns: DnsOptions, windivert: string, tun: string)
  datatype AppConfig = AppConfig(listen: SocketAddr, tlsPort: Option<Port>, backend: Backend, plugins: string)

  /** The source adds one to the listen port; a config without `tls_port` must leave room for that. */
  predicate ConfigOk(config: AppConfig) {
    config.tlsPort.Some? || config.listen.port < 65535
  }

  function EffectiveTlsPort(listen: SocketAddr, tlsPort: Option<Port>): nat {
    match tlsPort case Some(port) => port case None => listen.port + 1
  }

  function TlsPortOf(config: AppConfig): nat {
    EffectiveTlsPort(config.listen, config.tlsPort)
  }

  // ----- components; `id` tells one started instance from the next

  datatype Http = Http(id: nat, listen: SocketAddr)
  datatype Tls = Tls(id: nat, port: nat)
  datatype Dns = Dns(id: nat, options: DnsOptions)
  datatype Intercept = Intercept(id: nat, listen: SocketAddr, tlsPort: Option<Port>, backend: Backend, dnsId: nat)

  datatype Handles = Handles(http: Option<Http>, tls: Option<Tls>, dns: Option<Dns>, intercept: Option<Intercept>)

  /** A running intercept backend only points at running components. */
  predicate Safe(h: Handles) {
    h.intercept.Some? ==>
      var i := h.intercept.value;
      && h.http.Some? && h.http.value.listen == i.listen
      && h.tls.Some? && h.tls.value.port == EffectiveTlsPort(i.listen, i.tlsPort)
      && h.dns.Some? && h.dns.value.id == i.dnsId
  }

  /** Every component runs and runs what the config asks for. */
  predicate Serves(h: Handles, config: AppConfig) {
    && h.http.Some? && h.http.value.listen == config.listen
    && h.tls.Some? && h.tls.value.port == TlsPortOf(config)
    && h.dns.Some? && h.dns.value.options == config.backend.dns
    && h.intercept.Some?
    && var i := h.intercept.value;
    && i.listen == config.listen && EffectiveTlsPort(i.listen, i.tlsPort) == TlsPortOf(config)
    && i.backend == config.backend && i.dnsId == h.dns.value.id
  }

  /** Instances started before have smaller ids than any started later. */
  predicate Known(h: Handles, nextId: nat) {
    && (h.http.Some? ==> h.http.value.id < nextId) && (h.tls.Some? ==> h.tls.value.id < nextId)
    && (h.dns.Some? ==> h.dns.value.id < nextId) && (h.intercept.Some? ==> h.intercept.value.id < nextId)
  }

  datatype ReloadPlan = ReloadPlan(restartHttp: bool, restartTls: bool, restartDns: bool, restartIntercept: bool)

  function PlanFor(current: AppConfig, next: AppConfig): ReloadPlan {
    var http, tls, dns := current.listen != next.listen, TlsPortOf(current) != TlsPortOf(next),
                          current.backend.dns != next.backend.dns;
    ReloadPlan(http, tls, dns, dns || current.backend != next.backend || http || tls)
  }

  // ----- what one successful reload leaves behind

  function InterceptFor(config: AppConfig, id: nat, dnsId: nat): Intercept {
    Intercept(id, config.listen, config.tlsPort, config.backend, dnsId)
  }

  function Reloaded(h: Handles, plan: ReloadPlan, next: AppConfig, nextId: nat): Handles
    requires h.dns.Some?
  {
    var dns := if plan.restartDns then Dns(nextId, next.backend.dns) else h.dns.value;
    Handles(if plan.restartHttp then Some(Http(nextId + 1, next.listen)) else h.http,
            if plan.restartTls then Some(Tls(nextId + 2, TlsPortOf(next))) else h.tls,
            Some(dns),
            if plan.restartIntercept then Some(InterceptFor(next, nextId + 3, dns.id))
            else h.intercept)
  }

  // ----- the single starts and stops, in order

  /** One start (`Some`) or stop (`None`) of a component. */
  datatype Change = SetHttp(http: Option<Http>) | SetTls(tls: Option<Tls>) | SetDns(dns: Option<Dns>)
                  | SetIntercept(intercept: Option<Intercept>)

  /** Every start and stop since the program began, the latest outermost. */
  datatype History = Nothing | Then(past: History, change: Change)

  function Apply(h: Handles, c: Change): Handles {
    match c
    case SetHttp(http) => h.(http := http)
    case SetTls(tls) => h.(tls := tls)
    case SetDns(dns) => h.(dns := dns)
    case SetIntercept(intercept) => h.(intercept := intercept)
  }

  const STOPPED := Handles(None, None, None, None)

  /** The state a history leads to. */
  function Now(log: History): Handles {
    match log case Nothing => STOPPED case Then(past, change) => Apply(Now(past), change)
  }

  /** Every state of a history, the first and the last included, is safe. */
  predicate AlwaysSafe(log: History) {
    Safe(Now(log)) && (log.Then? ==> AlwaysSafe(log.past))
  }

  /** Which component starts succeed; a failed one ends the operation with an error. */
  datatype Starts = Starts(dns: bool, http: bool, tls: bool, intercept: bool)

  const ALL_START := Starts(true, true, true, true)

  function WithDns(log: History, plan: ReloadPlan, next: AppConfig, starts: Starts, id: nat): History {
    if !plan.restartDns then log
    else
      var stopped := Then(log, SetDns(None));
      if starts.dns then Then(stopped, SetDns(Some(Dns(id, next.backend.dns)))) else stopped
  }

  function WithHttp(log: History, plan: ReloadPlan, next: AppConfig, starts: Starts, id: nat): History {
    if !plan.restartHttp then log
    else
      var stopped := Then(log, SetHttp(None));
      if starts.http then Then(stopped, SetHttp(Some(Http(id, next.listen)))) else stopped
  }

  function WithTls(log: History, plan: ReloadPlan, next: AppConfig, starts: Starts, id: nat): History {
    if !plan.restartTls then log
    else
      var stopped := Then(log, SetTls(None));
      if starts.tls then Then(stopped, SetTls(Some(Tls(id, TlsPortOf(next))))) else stopped
  }

  /** DNS, HTTP and TLS, up to the first failing start. */
  function WithOthers(log: History, plan: ReloadPlan, next: AppConfig, starts: Starts, nextId: nat): History {
    var dns := WithDns(log, plan, next, starts, nextId);
    if plan.restartDns && !starts.dns then dns
    else
      var http := WithHttp(dns, plan, next, starts, nextId + 1);
      if plan.restartHttp && !starts.http then http else WithTls(http, plan, next, starts, nextId + 2)
  }

  function WithoutIntercept(log: History, plan: ReloadPlan): History {
    if plan.restartIntercept then Then(log, SetIntercept(None)) else log
  }

  /** A backend is started with the DNS server running at that moment. */
  function WithIntercept(log: History, plan: ReloadPlan, next: AppConfig, starts: Starts, id: nat): History {
    if plan.restartIntercept && starts.intercept && Now(log).dns.Some?
    then Then(log, SetIntercept(Some(InterceptFor(next, id, Now(log).dns.value.id)))) else log
  }

  /** The starts of everything but the intercept backend succeed. */
  predicate OthersStart(plan: ReloadPlan, starts: Starts) {
    (plan.restartDns ==> starts.dns) && (plan.restartHttp ==> starts.http) && (plan.restartTls ==> starts.tls)
  }

  predicate AllStart(plan: ReloadPlan, starts: Starts) {
    OthersStart(plan, starts) && (plan.restartIntercept ==> starts.intercept)
  }

  /** Everything that happens in one reload. */
  function WithReload(log: History, plan: ReloadPlan, next: AppConfig, starts: Starts, nextId: nat): History {
    var others := WithOthers(WithoutIntercept(log, plan), plan, next, starts, nextId);
    if OthersStart(plan, starts) then WithIntercept(others, plan, next, starts, nextId + 3) else others
  }

  function WithShutdown(log: History): History {
    Then(Then(Then(Then(log, SetIntercept(None)), SetDns(None)), SetHttp(None)), SetTls(None))
  }

  const EVERYTHING := ReloadPlan(true, true, true, true)

  /** Everything that happens in a startup, up to the first failing start. */
  function Startup(config: AppConfig, starts: Starts): History {
    if !starts.dns then Nothing
    else
      var dns := Then(Nothing, SetDns(Some(Dns(0, config.backend.dns))));
      if !starts.http then dns
      else
        var http := Then(dns, SetHttp(Some(Http(1, config.listen))));
        if !starts.tls then http
        else WithIntercept(Then(http, SetTls(Some(Tls(2, TlsPortOf(config))))), EVERYTHING, config, starts, 3)
  }

  // ----- where a reload leads, and that every state on the way is safe

  /** While no backend runs, the other components may come and go. */
  predicate NoBackend(log: History) {
    AlwaysSafe(log) && Now(log).intercept.None?
  }

  lemma OthersStaySafe(log: History, plan: ReloadPlan, next: AppConfig, starts: Starts, nextId: nat)
    requires NoBackend(log)
    ensures NoBackend(WithOthers(log, plan, next, starts, nextId))
  {
    var dns := WithDns(log, plan, next, starts, nextId);
    assert NoBackend(dns);
    var http := WithHttp(dns, plan, next, starts, nextId + 1);
    assert NoBackend(http);
    assert NoBackend(WithTls(http, plan, next, starts, nextId + 2));
  }

  lemma OthersLead(log: History, plan: ReloadPlan, next: AppConfig, starts: Starts, nextId: nat)
    requires Now(log).dns.Some? && OthersStart(plan, starts)
    ensures Now(WithOthers(log, plan, next, starts, nextId)) ==
            Reloaded(Now(log), plan, next, nextId).(intercept := Now(log).intercept)
  {
    var dns := WithDns(log, plan, next, starts, nextId);
    assert Now(dns) == Now(log).(dns := Reloaded(Now(log), plan, next, nextId).dns);
    var http := WithHttp(dns, plan, next, starts, nextId + 1);
    assert Now(http) == Now(dns).(http := Reloaded(Now(log), plan, next, nextId).http);
  }

  /** A reload without a failing start leads to what a reload leaves behind. */
  lemma ReloadLeads(log: History, plan: ReloadPlan, next: AppConfig, starts: Starts, nextId: nat)
    requires Now(log).dns.Some? && AllStart(plan, starts)
    ensures Now(WithReload(log, plan, next, starts, nextId)) == Reloaded(Now(log), plan, next, nextId)
  {
    OthersLead(WithoutIntercept(log, plan), plan, next, starts, nextId);
  }

  /** Whichever starts fail, no state of a reload has a backend pointing at a stopped component. */
  lemma ReloadIsSafe(log: History, current: AppConfig, next: AppConfig, starts: Starts, nextId: nat)
    requires AlwaysSafe(log) && Serves(Now(log), current) && Known(Now(log), nextId)
    ensures AlwaysSafe(WithReload(log, PlanFor(current, next), next, starts, nextId))
  {
    var plan := PlanFor(current, next);
    var stopped := WithoutIntercept(log, plan);
    if plan.restartIntercept {
      assert NoBackend(stopped);
      OthersStaySafe(stopped, plan, next, starts, nextId);
      if AllStart(plan, starts) {
        ReloadLeads(log, plan, next, starts, nextId);
        ReloadServes(Now(log), current, next, nextId);
      }
    } else {
      assert WithReload(log, plan, next, starts, nextId) == log;
    }
  }

  /** A reload that fails has stopped the backend and not started it again. */
  lemma FailedReloadHasNoBackend(log: History, current: AppConfig, next: AppConfig, starts: Starts, nextId: nat)
    requires AlwaysSafe(log) && !AllStart(PlanFor(current, next), starts)
    ensures Now(WithReload(log, PlanFor(current, next), next, starts, nextId)).intercept.None?
  {
    var plan := PlanFor(current, next);
    assert NoBackend(WithoutIntercept(log, plan));
    OthersStaySafe(WithoutIntercept(log, plan), plan, next, starts, nextId);
  }

  lemma ShutdownIsSafe(log: History)
    requires AlwaysSafe(log)
    ensures AlwaysSafe(WithShutdown(log)) && Now(WithShutdown(log)) == STOPPED
  {
    var one := Then(log, SetIntercept(None));
    assert NoBackend(one);
    var two := Then(one, SetDns(None));
    assert NoBackend(two);
    var three := Then(two, SetHttp(None));
    assert NoBackend(three);
  }

  lemma StillNoBackend(log: History, c: Change)
    requires NoBackend(log) && !c.SetIntercept?
    ensures NoBackend(Then(log, c)) && Now(Then(log, c)) == Apply(Now(log), c)
  {
  }

  /** The backend is started last, when everything it points at runs. */
  lemma StartupIsSafe(config: AppConfig, starts: Starts)
    ensures AlwaysSafe(Startup(config, starts))
    ensures starts == ALL_START ==>
            Serves(Now(Startup(config, starts)), config) && Known(Now(Startup(config, starts)), 4)
  {
    assert NoBackend(Nothing);
    var dns := Then(Nothing, SetDns(Some(Dns(0, config.backend.dns))));
    StillNoBackend(Nothing, dns.change);
    var http := Then(dns, SetHttp(Some(Http(1, config.listen))));
    StillNoBackend(dns, http.change);
    StillNoBackend(http, SetTls(Some(Tls(2, TlsPortOf(config)))));
  }

  // ----- the runtime

  class TransparentRuntime {
    var config: AppConfig
    var handles: Handles
    var nextId: nat
    ghost var log: History

    ghost predicate Valid()
      reads this
    {
      && ConfigOk(config) && Serves(handles, config) && Known(handles, nextId)
      && handles == Now(log) && AlwaysSafe(log)
    }

    constructor (config: AppConfig)
      ensures this.config == config && handles == STOPPED && log == Nothing && nextId == 4
    {
      this.config, handles, nextId, log := config, STOPPED, 4, Nothing;
    }

    /** Every change of a handle. */
    method Do(c: Change)
      requires handles == Now(log)
      modifies this`handles, this`log
      ensures handles == Now(log) && log == Then(old(log), c)
    {
      handles := Apply(handles, c);
      log := Then(log, c);
    }

    method RestartDns(plan: ReloadPlan, next: AppConfig, starts: Starts) returns (ok: bool)
      requires handles == Now(log)
      modifies this`handles, this`log
      ensures handles == Now(log) && log == WithDns(old(log), plan, next, starts, nextId)
      ensures ok <==> plan.restartDns ==> starts.dns
    {
      ok := true;
      if plan.restartDns {
        Do(SetDns(None));
        if !starts.dns {
          return false;
        }
        Do(SetDns(Some(Dns(nextId, next.backend.dns))));
      }
    }

    method RestartHttp(plan: ReloadPlan, next: AppConfig, starts: Starts) returns (ok: bool)
      requires handles == Now(log)
      modifies this`handles, this`log
      ensures handles == Now(log) && log == WithHttp(old(log), plan, next, starts, nextId + 1)
      ensures ok <==> plan.restartHttp ==> starts.http
    {
      ok := true;
      if plan.restartHttp {
        Do(SetHttp(None));
        if !starts.http {
          return false;
        }
        Do(SetHttp(Some(Http(nextId + 1, next.listen))));
      }
    }

    method RestartTls(plan: ReloadPlan, next: AppConfig, starts: Starts) returns (ok: bool)
      requires handles == Now(log)
      modifies this`handles, this`log
      ensures handles == Now(log) && log == WithTls(old(log), plan, next, starts, nextId + 2)
      ensures ok <==> plan.restartTls ==> starts.tls
    {
      ok := true;
      if plan.restartTls {
        Do(SetTls(None));
        if !starts.tls {
          return false;
        }
        Do(SetTls(Some(Tls(nextId + 2, TlsPortOf(next)))));
      }
    }

    /** DNS, HTTP and TLS, in this order, until one fails to start. */
    method RestartOthers(plan: ReloadPlan, next: AppConfig, starts: Starts) returns (ok: bool)
      requires handles == Now(log)
      modifies this`handles, this`log
      ensures handles == Now(log) && log == WithOthers(old(log), plan, next, starts, nextId)
      ensures ok <==> OthersStart(plan, starts)
    {
      ok := RestartDns(plan, next, starts);
      if ok {
        ok := RestartHttp(plan, next, starts);
        if ok {
          ok := RestartTls(plan, next, starts);
        }
      }
    }

    method StopIntercept(plan: ReloadPlan)
      requires handles == Now(log)
      modifies this`handles, this`log
      ensures handles == Now(log) && log == WithoutIntercept(old(log), plan)
    {
      if plan.restartIntercept {
        Do(SetIntercept(None));
      }
    }

    method StartIntercept(plan: ReloadPlan, next: AppConfig, starts: Starts) returns (ok: bool)
      requires handles == Now(log) && handles.dns.Some?
      modifies this`handles, this`log
      ensures handles == Now(log) && log == WithIntercept(old(log), plan, next, starts, nextId + 3)
      ensures ok <==> plan.restartIntercept ==> starts.intercept
    {
      ok := true;
      if plan.restartIntercept {
        if !starts.intercept {
          return false;
        }
        Do(SetIntercept(Some(InterceptFor(next, nextId + 3, handles.dns.value.id))));
      }
    }

    /** `reload`: what happens, in order, also when a start fails on the way. */
    method Reload(next: AppConfig, starts: Starts) returns (ok: bool)
      requires Valid() && ConfigOk(next)
      modifies this
      ensures log == WithReload(old(log), PlanFor(old(config), next), next, starts, old(nextId))
      ensures handles == Now(log) && AlwaysSafe(log)
      ensures ok <==> AllStart(PlanFor(old(config), next), starts)
      ensures ok ==> Valid() && config == next && nextId == old(nextId) + 4
      ensures ok ==> handles == Reloaded(old(handles), PlanFor(old(config), next), next, old(nextId))
      ensures !ok ==> config == old(config)
      ensures ok ==> if next.listen == old(config).listen then handles.http == old(handles).http
                     else handles.http.value.id >= old(nextId)
      ensures ok ==> if TlsPortOf(next) == TlsPortOf(old(config)) then handles.tls == old(handles).tls
                     else handles.tls.value.id >= old(nextId)
      ensures ok ==> if next.backend.dns == old(config).backend.dns then handles.dns == old(handles).dns
                     else handles.dns.value.id >= old(nextId)
      ensures ok ==> if next.listen == old(config).listen && TlsPortOf(next) == TlsPortOf(old(config))
                        && next.backend == old(config).backend
                     then handles.intercept == old(handles).intercept
                     else handles.intercept.value.id >= old(nextId)
    {
      var plan := PlanFor(config, next);
      ReloadIsSafe(log, config, next, starts, nextId);
      ghost var stopped := WithoutIntercept(log, plan);
      StopIntercept(plan);
      ok := RestartOthers(plan, next, starts);
      if !ok {
        return;
      }
      OthersLead(stopped, plan, next, starts, nextId);
      ok := StartIntercept(plan, next, starts);
      if !ok {
        return;
      }
      ReloadLeads(old(log), plan, next, starts, nextId);
      ReloadServes(old(handles), config, next, nextId);
      config := next;
      nextId := nextId + 4;
    }

    method Shutdown()
      requires Valid()
      modifies this`handles, this`log
      ensures log == WithShutdown(old(log)) && AlwaysSafe(log)
      ensures handles == Now(log) == STOPPED
    {
      ShutdownIsSafe(log);
      Do(SetIntercept(None));
      Do(SetDns(None));
      Do(SetHttp(None));
      Do(SetTls(None));
    }
  }

  /** `start_transparent_components`. */
  method StartTransparentComponents(config: AppConfig, starts: Starts) returns (runtime: TransparentRuntime, ok: bool)
    requires ConfigOk(config)
    ensures fresh(runtime) && runtime.config == config && runtime.nextId == 4
    ensures runtime.log == Startup(config, starts) && AlwaysSafe(runtime.log) && runtime.handles == Now(runtime.log)
    ensures ok <==> starts == ALL_START
    ensures ok ==> runtime.Valid()
  {
    StartupIsSafe(config, starts);
    runtime := new TransparentRuntime(config);
    ok := false;
    if !starts.dns {
      return;
    }
    runtime.Do(SetDns(Some(Dns(0, config.backend.dns))));
    if !starts.http {
      return;
    }
    runtime.Do(SetHttp(Some(Http(1, config.listen))));
    if !starts.tls {
      return;
    }
    runtime.Do(SetTls(Some(Tls(2, TlsPortOf(config)))));
    if !starts.intercept {
      return;
    }
    runtime.Do(SetIntercept(Some(InterceptFor(config, 3, runtime.handles.dns.value.id))));
    ok := true;
  }

  // ----- every sequence of successful reloads

  function ReloadMany(h: Handles, current: AppConfig, configs: seq<AppConfig>, nextId: nat): Handles
    requires h.dns.Some?
    decreases |configs|
  {
    if configs == [] then h
    else ReloadMany(Reloaded(h, PlanFor(current, configs[0]), configs[0], nextId), configs[0], configs[1..], nextId + 4)
  }

  function Last(current: AppConfig, configs: seq<AppConfig>): AppConfig {
    if configs == [] then current else configs[|configs| - 1]
  }

  lemma ReloadServes(h: Handles, current: AppConfig, next: AppConfig, nextId: nat)
    requires Serves(h, current) && Known(h, nextId)
    ensures var after := Reloaded(h, PlanFor(current, next), next, nextId);
            Serves(after, next) && Known(after, nextId + 4)
  {
  }

  /** After any sequence of reloads the components serve the last config. */
  lemma {:induction false} ReloadsServe(h: Handles, current: AppConfig, configs: seq<AppConfig>, nextId: nat)
    requires Serves(h, current) && Known(h, nextId)
    ensures Serves(ReloadMany(h, current, configs, nextId), Last(current, configs))
    decreases |configs|
  {
    if configs != [] {
      ReloadServes(h, current, configs[0], nextId);
      ReloadsServe(Reloaded(h, PlanFor(current, configs[0]), configs[0], nextId), configs[0], configs[1..], nextId + 4);
    }
  }

  /** Which components some reload of the sequence has to restart. */
  function Restarted(current: AppConfig, configs: seq<AppConfig>): ReloadPlan
    decreases |configs|
  {
    if configs == [] then ReloadPlan(false, false, false, false)
    else
      var first, later := PlanFor(current, configs[0]), Restarted(configs[0], configs[1..]);
      ReloadPlan(first.restartHttp || later.restartHttp, first.restartTls || later.restartTls,
                 first.restartDns || later.restartDns, first.restartIntercept || later.restartIntercept)
  }

  /** A component is the same instance at the end exactly when no reload on the way restarted it. */
  lemma {:induction false} SurvivesIffUnaffected(h: Handles, current: AppConfig, configs: seq<AppConfig>, nextId: nat)
    requires Serves(h, current) && Known(h, nextId)
    ensures var after, restarted := ReloadMany(h, current, configs, nextId), Restarted(current, configs);
            && (after.http == h.http <==> !restarted.restartHttp)
            && (after.tls == h.tls <==> !restarted.restartTls)
            && (after.dns == h.dns <==> !restarted.restartDns)
            && (after.intercept == h.intercept <==> !restarted.restartIntercept)
    decreases |configs|
  {
    if configs != [] {
      var next, rest := configs[0], configs[1..];
      var mid := Reloaded(h, PlanFor(current, next), next, nextId);
      ReloadServes(h, current, next, nextId);
      SurvivesIffUnaffected(mid, next, rest, nextId + 4);
      NeverOlder(mid, next, rest, nextId + 4);
    }
  }

  /** Reloads keep an instance or replace it by a younger one. */
  lemma {:induction false} NeverOlder(h: Handles, current: AppConfig, configs: seq<AppConfig>, nextId: nat)
    requires Serves(h, current) && Known(h, nextId)
    ensures var after := ReloadMany(h, current, configs, nextId);
            && after.http.Some? && (after.http == h.http || after.http.value.id >= nextId)
            && after.tls.Some? && (after.tls == h.tls || after.tls.value.id >= nextId)
            && after.dns.Some? && (after.dns == h.dns || after.dns.value.id >= nextId)
            && after.intercept.Some? && (after.intercept == h.intercept || after.intercept.value.id >= nextId)
    decreases |configs|
  {
    if configs != [] {
      ReloadServes(h, current, configs[0], nextId);
      NeverOlder(Reloaded(h, PlanFor(current, configs[0]), configs[0], nextId), configs[0], configs[1..], nextId + 4);
    }
  }

  // ----- the same on the fields of the configs

  /** The TLS port is the one set, else the port after the HTTP port. */
  lemma TlsPortIs(config: AppConfig)
    ensures forall p :: config.tlsPort == Some(p) ==> TlsPortOf(config) == p
    ensures config.tlsPort == None ==> TlsPortOf(config) == config.listen.port + 1
  {
  }

  predicate SameListen(current: AppConfig, configs: seq<AppConfig>) {
    forall i :: 0 <= i < |configs| ==> configs[i].listen == current.listen
  }

  predicate SameTlsPort(current: AppConfig, configs: seq<AppConfig>) {
    forall i :: 0 <= i < |configs| ==> TlsPortOf(configs[i]) == TlsPortOf(current)
  }

  predicate SameDns(current: AppConfig, configs: seq<AppConfig>) {
    forall i :: 0 <= i < |configs| ==> configs[i].backend.dns == current.backend.dns
  }

  predicate SameBackend(current: AppConfig, configs: seq<AppConfig>) {
    forall i :: 0 <= i < |configs| ==> configs[i].backend == current.backend
  }

  lemma {:induction false} RestartedIff(current: AppConfig, configs: seq<AppConfig>)
    ensures var r := Restarted(current, configs);
            && (r.restartHttp <==> !SameListen(current, configs))
            && (r.restartTls <==> !SameTlsPort(current, configs))
            && (r.restartDns <==> !SameDns(current, configs))
            && (r.restartIntercept <==>
                  !(SameListen(current, configs) && SameTlsPort(current, configs) && SameBackend(current, configs)))
    decreases |configs|
  {
    if configs != [] {
      var next, rest := configs[0], configs[1..];
      RestartedIff(next, rest);
      SameSplits(current, configs);
    }
  }

  /** Constant over a sequence: in its first config, and from there on. */
  lemma SameSplits(current: AppConfig, configs: seq<AppConfig>)
    requires configs != []
    ensures var next, rest := configs[0], configs[1..];
            && (SameListen(current, configs) <==> next.listen == current.listen && SameListen(next, rest))
            && (SameTlsPort(current, configs) <==> TlsPortOf(next) == TlsPortOf(current) && SameTlsPort(next, rest))
            && (SameDns(current, configs) <==> next.backend.dns == current.backend.dns && SameDns(next, rest))
            && (SameBackend(current, configs) <==> next.backend == current.backend && SameBackend(next, rest))
  {
    assert configs == [configs[0]] + configs[1..];
  }

  /**
   Over every sequence of reloads a component is kept exactly if what it depends on is the same
   in all configs; otherwise it is a younger instance.
   */
  lemma KeptIffSame(h: Handles, current: AppConfig, configs: seq<AppConfig>, nextId: nat)
    requires Serves(h, current) && Known(h, nextId)
    ensures var after := ReloadMany(h, current, configs, nextId);
            && after.http.Some? && after.tls.Some? && after.dns.Some? && after.intercept.Some?
            && (if SameListen(current, configs) then after.http == h.http else after.http.value.id >= nextId)
            && (if SameTlsPort(current, configs) then after.tls == h.tls else after.tls.value.id >= nextId)
            && (if SameDns(current, configs) then after.dns == h.dns else after.dns.value.id >= nextId)
            && (if SameListen(current, configs) && SameTlsPort(current, configs) && SameBackend(current, configs)
                then after.intercept == h.intercept else after.intercept.value.id >= nextId)
  {
    RestartedIff(current, configs);
    SurvivesIffUnaffected(h, current, configs, nextId);
    NeverOlder(h, current, configs, nextId);
  }

  /** Configs that differ in nothing a component depends on, such as plugins, restart nothing. */
  lemma OtherChangesRestartNothing(log: History, current: AppConfig, next: AppConfig, starts: Starts, nextId: nat)
    requires next.listen == current.listen && TlsPortOf(next) == TlsPortOf(current) && next.backend == current.backend
    ensures WithReload(log, PlanFor(current, next), next, starts, nextId) == log
  {
  }

  // ----- in which order

  /** The changes of a history, the earliest first. */
  function Changes(log: History): seq<Change> {
    match log case Nothing => [] case Then(past, change) => Changes(past) + [change]
  }

  lemma StartupOrder(config: AppConfig)
    ensures var h := Now(Startup(config, ALL_START));
            Changes(Startup(config, ALL_START)) ==
            [SetDns(h.dns), SetHttp(h.http), SetTls(h.tls), SetIntercept(h.intercept)]
  {
    var dns := Then(Nothing, SetDns(Some(Dns(0, config.backend.dns))));
    var http := Then(dns, SetHttp(Some(Http(1, config.listen))));
    var tls := Then(http, SetTls(Some(Tls(2, TlsPortOf(config)))));
    assert Changes(dns) == [dns.change] && Changes(http) == [dns.change, http.change];
    assert Changes(tls) == [dns.change, http.change, tls.change];
    assert Now(dns).dns == dns.change.dns;
    assert Now(http).dns == dns.change.dns && Now(http).http == http.change.http;
    var all := Startup(config, ALL_START);
    assert all == Then(tls, all.change) && all.change.SetIntercept?;
    assert Now(all) == Handles(http.change.http, tls.change.tls, dns.change.dns, all.change.intercept);
  }

  lemma ShutdownOrder(log: History)
    ensures Changes(WithShutdown(log)) ==
            Changes(log) + [SetIntercept(None), SetDns(None), SetHttp(None), SetTls(None)]
  {
    var one := Then(log, SetIntercept(None));
    var two := Then(one, SetDns(None));
    var three := Then(two, SetHttp(None));
    assert Changes(one) == Changes(log) + [SetIntercept(None)];
    assert Changes(two) == Changes(log) + [SetIntercept(None), SetDns(None)];
    assert Changes(three) == Changes(log) + [SetIntercept(None), SetDns(None), SetHttp(None)];
  }

  lemma TwoChanges(log: History, c: Change, d: Change)
    ensures Changes(Then(Then(log, c), d)) == Changes(log) + [c, d]
    ensures Now(Then(Then(log, c), d)) == Apply(Apply(Now(log), c), d)
  {
    assert Changes(Then(log, c)) == Changes(log) + [c];
    assert Now(Then(log, c)) == Apply(Now(log), c);
  }

  lemma OthersOrder(log: History, next: AppConfig, nextId: nat)
    ensures var after := WithOthers(log, EVERYTHING, next, ALL_START, nextId);
            && Now(after).dns.Some?
            && Changes(after) == Changes(log) + [SetDns(None), SetDns(Now(after).dns), SetHttp(None),
                                                 SetHttp(Now(after).http), SetTls(None), SetTls(Now(after).tls)]
  {
    var dns, http, tls := Some(Dns(nextId, next.backend.dns)), Some(Http(nextId + 1, next.listen)),
                          Some(Tls(nextId + 2, TlsPortOf(next)));
    var b := Then(Then(log, SetDns(None)), SetDns(dns));
    var c := Then(Then(b, SetHttp(None)), SetHttp(http));
    TwoChanges(log, SetDns(None), SetDns(dns));
    TwoChanges(b, SetHttp(None), SetHttp(http));
    TwoChanges(c, SetTls(None), SetTls(tls));
    assert WithOthers(log, EVERYTHING, next, ALL_START, nextId) == Then(Then(c, SetTls(None)), SetTls(tls));
  }

  /** A reload that changes everything: the backend goes first and comes last, each component stops before it starts. */
  lemma ReloadOrder(log: History, current: AppConfig, next: AppConfig, nextId: nat)
    requires next.listen != current.listen && TlsPortOf(next) != TlsPortOf(current)
    requires next.backend.dns != current.backend.dns
    ensures var after := WithReload(log, PlanFor(current, next), next, ALL_START, nextId);
            var h := Now(after);
            Changes(after) == Changes(log) + [SetIntercept(None), SetDns(None), SetDns(h.dns), SetHttp(None),
                                              SetHttp(h.http), SetTls(None), SetTls(h.tls), SetIntercept(h.intercept)]
  {
    assert PlanFor(current, next) == EVERYTHING;
    var stopped := Then(log, SetIntercept(None));
    OthersOrder(stopped, next, nextId);
    var others := WithOthers(stopped, EVERYTHING, next, ALL_START, nextId);
    var after := WithReload(log, EVERYTHING, next, ALL_START, nextId);
    assert after == Then(others, after.change) && after.change.SetIntercept?;
    assert Now(after) == Now(others).(intercept := after.change.intercept);
  }

  // ----- whole runs

  /** A program's history through successful reloads. */
  function WithReloads(log: History, current: AppConfig, configs: seq<AppConfig>, nextId: nat): History
    decreases |configs|
  {
    if configs == [] then log
    else WithReloads(WithReload(log, PlanFor(current, configs[0]), configs[0], ALL_START, nextId),
                     configs[0], configs[1..], nextId + 4)
  }

  lemma {:induction false} ReloadsAreSafe(log: History, current: AppConfig, configs: seq<AppConfig>, nextId: nat)
    requires AlwaysSafe(log) && Serves(Now(log), current) && Known(Now(log), nextId)
    ensures var after := WithReloads(log, current, configs, nextId);
            && AlwaysSafe(after) && Now(after) == ReloadMany(Now(log), current, configs, nextId)
            && Serves(Now(after), Last(current, configs)) && Known(Now(after), nextId + 4 * |configs|)
    decreases |configs|
  {
    if configs != [] {
      var next := configs[0];
      ReloadIsSafe(log, current, next, ALL_START, nextId);
      ReloadLeads(log, PlanFor(current, next), next, ALL_START, nextId);
      ReloadServes(Now(log), current, next, nextId);
      ReloadsAreSafe(WithReload(log, PlanFor(current, next), next, ALL_START, nextId), next, configs[1..], nextId + 4);
    }
  }

  /**
   From startup through any reloads, and then through one more reload whichever of its starts
   fail, or through a shutdown: at no moment does a running backend point at a stopped component.
   */
  lemma WholeRunIsSafe(config: AppConfig, configs: seq<AppConfig>, next: AppConfig, starts: Starts)
    ensures var log := WithReloads(Startup(config, ALL_START), config, configs, 4);
            && Serves(Now(log), Last(config, configs))
            && AlwaysSafe(WithReload(log, PlanFor(Last(config, configs), next), next, starts, 4 + 4 * |configs|))
            && AlwaysSafe(WithShutdown(log)) && Now(WithShutdown(log)) == STOPPED
  {
    StartupIsSafe(config, ALL_START);
    ReloadsAreSafe(Startup(config, ALL_START), config, configs, 4);
    var log := WithReloads(Startup(config, ALL_START), config, configs, 4);
    ReloadIsSafe(log, Last(config, configs), next, starts, 4 + 4 * |configs|);
    ShutdownIsSafe(log);
  }

  /** The order matters: stopping the DNS server first leaves the backend pointing at nothing. */
  lemma OtherOrderIsUnsafe(config: AppConfig)
    ensures !AlwaysSafe(Then(Startup(config, ALL_START), SetDns(None)))
  {
    StartupIsSafe(config, ALL_START);
  }
}
