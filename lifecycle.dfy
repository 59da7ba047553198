/** The session lifecycle as functions of the registry and of the container
    runtime's state: reconciliation, provisioning, deletion of one session and
    deletion of all. The imperative `SessionManager` is proved against these. */
module Lifecycle {
  import opened Wrappers
  import opened Decimal
  import opened Profiles
  import opened Store

  /** What `client.containers.get(id)` reports for a container that exists:
      status "running", any other status, or an exception other than NotFound.
      An id absent from the runtime map is the NotFound case. */
  datatype Status = Running | Stopped | QueryError

  datatype Container = Container(name: string, config: ServiceConfig, state: Status)

  type Runtime = map<ContainerId, Container>

  /** The two errors that reach the HTTP caller. */
  datatype ProvisioningReason = StartFailed | NoPortBinding | InvalidHostPort
  datatype ApiError = ProvisioningError(reason: ProvisioningReason) | NotFound

  function StatusCode(f: ApiError): (code: nat)
    ensures code == 404 <==> f.NotFound?
    ensures f.ProvisioningError? ==> code == 500
  {
    match f
    case ProvisioningError(_) => 500
    case NotFound => 404
  }

  datatype SessionResponse = SessionResponse(sessionId: SessionId, url: string, port: int)

  /** New registry, new runtime and the answer of one operation. */
  datatype Outcome<T> = Outcome(registry: SessionMap, runtime: Runtime, response: Result<T, ApiError>)

  const SessionIdPrefix: string := "sess-"
  const ContainerNamePrefix: string := "session-"
  const UrlPrefix: string := "http://localhost:"

  /** `f"sess-{token}"`: distinct tokens give distinct session ids. */
  function SessionIdFor(token: string): (id: SessionId)
    ensures |id| == |SessionIdPrefix| + |token|
    ensures id[..|SessionIdPrefix|] == "sess-" && id[|SessionIdPrefix|..] == token
  {
    SessionIdPrefix + token
  }

  /** `f"session-{session_id}"`: distinct sessions give distinct container names. */
  function ContainerNameFor(id: SessionId): (name: string)
    ensures |name| == |ContainerNamePrefix| + |id|
    ensures name[..|ContainerNamePrefix|] == "session-" && name[|ContainerNamePrefix|..] == id
  {
    ContainerNamePrefix + id
  }

  // ---------------------------------------------------------------------
  // Reconciliation

  /** A record is kept when its container exists and is running, or when the
      runtime query for it failed with anything but NotFound. */
  predicate Survives(rt: Runtime, rec: SessionRecord) {
    rec.containerId in rt && rt[rec.containerId].state != Stopped
  }

  /** The registry after `cleanup_dead_containers`. */
  function Reconciled(reg: SessionMap, rt: Runtime): (r: SessionMap)
    ensures r.Keys <= reg.Keys
    ensures forall id :: id in r ==> r[id] == reg[id]
    ensures forall id :: id in reg ==> (id in r <==> Survives(rt, reg[id]))
  {
    map id | id in reg && Survives(rt, reg[id]) :: reg[id]
  }

  /** The ids reconciliation appends to `to_remove`. */
  function Dead(reg: SessionMap, rt: Runtime): (d: set<SessionId>)
    ensures d == reg.Keys - Reconciled(reg, rt).Keys
  {
    set id | id in reg && !Survives(rt, reg[id])
  }

  function ContainerIds(reg: SessionMap): (cs: set<ContainerId>)
    ensures forall id :: id in reg ==> reg[id].containerId in cs
    ensures forall c :: c in cs ==> exists id :: id in reg && reg[id].containerId == c
  {
    set id | id in reg :: reg[id].containerId
  }

  /** Containers referenced by a record that the runtime reports as not running. */
  function StoppedContainers(reg: SessionMap, rt: Runtime): (cs: set<ContainerId>)
    ensures cs <= ContainerIds(reg) && cs <= rt.Keys
    ensures forall c :: c in cs ==> rt[c].state == Stopped
  {
    set c | c in ContainerIds(reg) && c in rt && rt[c].state == Stopped
  }

  /** `container.remove(force=True)` succeeds: the container exists, the
      lookup did not fail, and the runtime did not refuse this removal. */
  predicate Removable(rt: Runtime, c: ContainerId, refused: set<ContainerId>) {
    c in rt && rt[c].state != QueryError && c !in refused
  }

  /** Best-effort forced removal of every container in `cs`. */
  function RemoveContainers(rt: Runtime, cs: set<ContainerId>, refused: set<ContainerId>): (r: Runtime)
    ensures r.Keys <= rt.Keys
    ensures forall c :: c in r ==> r[c] == rt[c]
    ensures forall c :: c in rt ==> (c !in r <==> c in cs && Removable(rt, c, refused))
  {
    map c | c in rt && !(c in cs && Removable(rt, c, refused)) :: rt[c]
  }

  /** The runtime after reconciliation has force-removed the stopped containers. */
  function Reaped(reg: SessionMap, rt: Runtime, refused: set<ContainerId>): (r: Runtime)
    ensures r.Keys <= rt.Keys
    ensures forall c :: c in r ==> r[c] == rt[c]
    ensures forall c :: c in rt ==>
      (c !in r <==> rt[c].state == Stopped && c in ContainerIds(reg) && c !in refused)
  {
    RemoveContainers(rt, StoppedContainers(reg, rt), refused)
  }

  /** The sessions file after reconciliation: written only when a record was dropped. */
  function ReconcileFile(f: StoreFile, rt: Runtime): (f': StoreFile)
    ensures Load(f') == Reconciled(Load(f), rt)
    ensures Dead(Load(f), rt) == {} ==> f' == f
  {
    if Dead(Load(f), rt) == {} then NothingDeadKeepsAll(Load(f), rt); f
    else Save(Reconciled(Load(f), rt))
  }

  /** With nothing to remove, reconciliation leaves the registry as it was. */
  lemma NothingDeadKeepsAll(reg: SessionMap, rt: Runtime)
    ensures Dead(reg, rt) == {} <==> Reconciled(reg, rt) == reg
  {
    if Dead(reg, rt) == {} {
      forall id | id in reg ensures id in Reconciled(reg, rt) {
        assert id !in Dead(reg, rt);
      }
      assert Reconciled(reg, rt).Keys == reg.Keys;
    } else {
      var id :| id in Dead(reg, rt);
      assert id !in Reconciled(reg, rt);
    }
  }

  // ---------------------------------------------------------------------
  // Creation

  /** `create_session` after its reconciliation: start a container for the
      resolved configuration, read the host port of the first binding of
      6901/tcp, and record the session only if all of that succeeded. */
  function Provision(reg: SessionMap, rt: Runtime, service: string, user: string, id: SessionId,
                     launch: Option<ContainerId>, hostPorts: seq<string>): (o: Outcome<SessionResponse>)
    ensures o.response.Success? <==> launch.Some? && |hostPorts| > 0 && ParseDecimal(hostPorts[0]).Some?
    ensures o.response.Failure? ==> o.registry == reg && o.response.error.ProvisioningError?
    ensures o.response.Success? ==> id in o.registry && o.registry == reg[id := o.registry[id]] && o.registry[id].port == o.response.value.port
    ensures launch.None? ==> o.runtime == rt
    ensures launch.Some? ==> o.runtime.Keys == rt.Keys + {launch.value}
    ensures launch.Some? ==> o.runtime[launch.value] == Container(ContainerNameFor(id), ResolveService(service), Running)
    ensures launch.Some? ==> forall c :: c in rt && c != launch.value ==> o.runtime[c] == rt[c]
  {
    match launch
    case None => Outcome(reg, rt, Failure(ProvisioningError(StartFailed)))
    case Some(cid) =>
      var rt' := rt[cid := Container(ContainerNameFor(id), ResolveService(service), Running)];
      if |hostPorts| == 0 then Outcome(reg, rt', Failure(ProvisioningError(NoPortBinding)))
      else
        match ParseDecimal(hostPorts[0])
        case None => Outcome(reg, rt', Failure(ProvisioningError(InvalidHostPort)))
        case Some(p) =>
          var rec := SessionRecord(cid, p, service, user, ContainerNameFor(id));
          Outcome(reg[id := rec], rt', Success(SessionResponse(id, UrlPrefix + hostPorts[0], p)))
  }

  /** The whole of `create_session`: reconcile, then provision. */
  function Create(reg: SessionMap, rt: Runtime, refused: set<ContainerId>, service: string, user: string,
                  token: string, launch: Option<ContainerId>, hostPorts: seq<string>): (o: Outcome<SessionResponse>)
    ensures o.registry.Keys <= Reconciled(reg, rt).Keys + {SessionIdFor(token)}
    ensures o.response.Success? ==> o.response.value.sessionId == SessionIdFor(token) && SessionIdFor(token) in o.registry
  {
    Provision(Reconciled(reg, rt), Reaped(reg, rt, refused), service, user, SessionIdFor(token), launch, hostPorts)
  }

  // ---------------------------------------------------------------------
  // Deletion

  function CleanedUpMessage(id: SessionId): string {
    "Session " + id + " cleaned up"
  }

  const AllCleanedUpMessage: string := "All sessions cleaned up"

  /** `cleanup_session`. */
  function Terminate(reg: SessionMap, rt: Runtime, id: SessionId, refused: set<ContainerId>): (o: Outcome<string>)
    ensures o.response.Failure? <==> id !in reg
    ensures o.response.Failure? ==> o.response.error == NotFound && o.runtime == rt
    ensures o.registry == reg - {id}
    ensures o.runtime.Keys <= rt.Keys
  {
    if id !in reg then Outcome(reg, rt, Failure(NotFound))
    else Outcome(reg - {id}, RemoveContainers(rt, {reg[id].containerId}, refused), Success(CleanedUpMessage(id)))
  }

  /** `cleanup_all_sessions`. */
  function TerminateAll(reg: SessionMap, rt: Runtime, refused: set<ContainerId>): (o: Outcome<string>)
    ensures o.registry == map[] && o.response.Success?
    ensures o.runtime.Keys <= rt.Keys
  {
    Outcome(map[], RemoveContainers(rt, ContainerIds(reg), refused), Success(AllCleanedUpMessage))
  }
}
