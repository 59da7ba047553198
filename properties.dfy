/** What the lifecycle functions guarantee: which records reconciliation keeps,
    that it is idempotent, how a create response agrees with the stored record,
    what a failed create leaves behind, and what deletion guarantees. */
module Properties {
  import opened Wrappers
  import opened Decimal
  import opened Profiles
  import opened Store
  import opened Lifecycle

  // ---------------------------------------------------------------------
  // Reconciliation

  /** The classification of one record: running and query-error records stay
      unchanged, stopped and missing ones go. */
  lemma ReconcileClassification(reg: SessionMap, rt: Runtime, id: SessionId)
    requires id in reg
    ensures var c := reg[id].containerId;
      && (c in rt && rt[c].state == Running ==> id in Reconciled(reg, rt) && Reconciled(reg, rt)[id] == reg[id])
      && (c in rt && rt[c].state == QueryError ==> id in Reconciled(reg, rt) && Reconciled(reg, rt)[id] == reg[id])
      && (c in rt && rt[c].state == Stopped ==> id !in Reconciled(reg, rt) && id in Dead(reg, rt))
      && (c !in rt ==> id !in Reconciled(reg, rt) && id in Dead(reg, rt))
  {
  }

  /** Every record that survives reconciliation still finds its container,
      in the same state, in the runtime reconciliation leaves behind. */
  lemma SurvivorsStillTracked(reg: SessionMap, rt: Runtime, refused: set<ContainerId>, id: SessionId)
    requires id in Reconciled(reg, rt)
    ensures var c := reg[id].containerId;
      c in Reaped(reg, rt, refused) && Reaped(reg, rt, refused)[c] == rt[c] && Survives(Reaped(reg, rt, refused), reg[id])
  {
    var c := reg[id].containerId;
    assert rt[c].state != Stopped;
  }

  /** A second reconciliation with no runtime change in between keeps every
      record and so has nothing to remove. */
  lemma {:induction false} ReconcileIdempotent(reg: SessionMap, rt: Runtime, refused: set<ContainerId>, refusedAgain: set<ContainerId>)
    ensures Reconciled(Reconciled(reg, rt), Reaped(reg, rt, refused)) == Reconciled(reg, rt)
    ensures Dead(Reconciled(reg, rt), Reaped(reg, rt, refused)) == {}
    ensures Reaped(Reconciled(reg, rt), Reaped(reg, rt, refused), refusedAgain) == Reaped(reg, rt, refused)
  {
    var r1, rt1 := Reconciled(reg, rt), Reaped(reg, rt, refused);
    forall id | id in r1 ensures Survives(rt1, r1[id]) {
      SurvivorsStillTracked(reg, rt, refused, id);
    }
    assert Reconciled(r1, rt1).Keys == r1.Keys;
    assert StoppedContainers(r1, rt1) == {};
    assert RemoveContainers(rt1, {}, refusedAgain).Keys == rt1.Keys;
  }

  /** The same for the sessions file: the second reconciliation does not write. */
  lemma ReconcileFileIdempotent(f: StoreFile, rt: Runtime, refused: set<ContainerId>)
    ensures ReconcileFile(ReconcileFile(f, rt), Reaped(Load(f), rt, refused)) == ReconcileFile(f, rt)
  {
    ReconcileIdempotent(Load(f), rt, refused, refused);
  }

  // ---------------------------------------------------------------------
  // Creation

  /** A create succeeds exactly when the container started, it has a binding
      for 6901/tcp, and that binding's host port is a numeral. */
  lemma CreateSucceedsExactly(reg: SessionMap, rt: Runtime, refused: set<ContainerId>, service: string,
                              user: string, token: string, launch: Option<ContainerId>, hostPorts: seq<string>)
    ensures Create(reg, rt, refused, service, user, token, launch, hostPorts).response.Success?
        <==> launch.Some? && |hostPorts| > 0 && ParseDecimal(hostPorts[0]).Some?
  {
  }

  /** A successful create adds exactly one entry to the reconciled registry,
      keyed by the new session id, holding the request's service and user and
      the assigned port; the response reports that same id, port and URL. */
  lemma CreateAddsOneRecord(reg: SessionMap, rt: Runtime, refused: set<ContainerId>, service: string,
                            user: string, token: string, launch: Option<ContainerId>, hostPorts: seq<string>)
    requires Create(reg, rt, refused, service, user, token, launch, hostPorts).response.Success?
    requires SessionIdFor(token) !in Reconciled(reg, rt)
    ensures var o, r, id := Create(reg, rt, refused, service, user, token, launch, hostPorts), Reconciled(reg, rt), SessionIdFor(token);
      && o.registry.Keys == r.Keys + {id}
      && |o.registry| == |r| + 1
      && (forall k :: k in r ==> o.registry[k] == r[k])
      && o.registry[id] == SessionRecord(launch.value, o.response.value.port, service, user, "session-" + id)
      && o.response.value.sessionId == id
      && Some(o.response.value.port) == ParseDecimal(hostPorts[0])
      && o.response.value.url == "http://localhost:" + hostPorts[0]
  {
    var o, r, id := Create(reg, rt, refused, service, user, token, launch, hostPorts), Reconciled(reg, rt), SessionIdFor(token);
    assert o.registry == r[id := o.registry[id]];
    assert |o.registry.Keys| == |r.Keys| + 1;
  }

  /** When the runtime reports the port as the numeral of `p`, the session is
      stored with port `p` and the URL is the localhost URL of that port. */
  lemma CreateReportsPort(reg: SessionMap, rt: Runtime, refused: set<ContainerId>, service: string,
                          user: string, token: string, cid: ContainerId, hostPorts: seq<string>, p: nat)
    requires |hostPorts| > 0 && hostPorts[0] == DecimalString(p)
    ensures var o := Create(reg, rt, refused, service, user, token, Some(cid), hostPorts);
      && o.response.Success?
      && o.response.value.port == p
      && o.registry[SessionIdFor(token)].port == p
      && o.response.value.url == "http://localhost:" + DecimalString(o.response.value.port)
  {
    ParseDecimalString(p);
  }

  /** A create that fails leaves the reconciled registry as it is. If the
      container was started, it stays in the runtime, running. */
  lemma CreateFailureKeepsRegistry(reg: SessionMap, rt: Runtime, refused: set<ContainerId>, service: string,
                                   user: string, token: string, launch: Option<ContainerId>, hostPorts: seq<string>)
    requires Create(reg, rt, refused, service, user, token, launch, hostPorts).response.Failure?
    ensures var o := Create(reg, rt, refused, service, user, token, launch, hostPorts);
      && o.registry == Reconciled(reg, rt)
      && o.response.error.ProvisioningError?
      && (launch.None? ==> o.runtime == Reaped(reg, rt, refused))
      && (launch.Some? ==>
            (launch.value in o.runtime
             && o.runtime[launch.value] == Container(ContainerNameFor(SessionIdFor(token)), ResolveService(service), Running)))
      && (launch.Some? ==> forall c :: c in Reaped(reg, rt, refused) && c != launch.value ==>
            c in o.runtime && o.runtime[c] == Reaped(reg, rt, refused)[c])
  {
  }

  /** No record refers to the container left behind by a failed create. */
  lemma FailedCreateOrphansContainer(reg: SessionMap, rt: Runtime, refused: set<ContainerId>, service: string,
                                     user: string, token: string, cid: ContainerId, hostPorts: seq<string>)
    requires cid !in rt
    requires Create(reg, rt, refused, service, user, token, Some(cid), hostPorts).response.Failure?
    ensures var o := Create(reg, rt, refused, service, user, token, Some(cid), hostPorts);
      cid in o.runtime && cid !in ContainerIds(o.registry)
  {
    var o := Create(reg, rt, refused, service, user, token, Some(cid), hostPorts);
    forall id | id in o.registry ensures o.registry[id].containerId != cid {
      assert Survives(rt, reg[id]);
    }
  }

  /** A session just created is listed by the next reconciliation with the
      port the create reported. */
  lemma CreatedSessionIsListed(reg: SessionMap, rt: Runtime, refused: set<ContainerId>, service: string,
                               user: string, token: string, launch: Option<ContainerId>, hostPorts: seq<string>)
    requires Create(reg, rt, refused, service, user, token, launch, hostPorts).response.Success?
    ensures var o := Create(reg, rt, refused, service, user, token, launch, hostPorts);
      var listed := Reconciled(o.registry, o.runtime);
      o.response.value.sessionId in listed && listed[o.response.value.sessionId].port == o.response.value.port
  {
  }

  // ---------------------------------------------------------------------
  // One session per container

  /** No two records share a container. */
  ghost predicate OneSessionPerContainer(reg: SessionMap) {
    forall a, b :: a in reg && b in reg && a != b ==> reg[a].containerId != reg[b].containerId
  }

  lemma ReconcileKeepsOneSessionPerContainer(reg: SessionMap, rt: Runtime)
    requires OneSessionPerContainer(reg)
    ensures OneSessionPerContainer(Reconciled(reg, rt))
  {
  }

  /** Creating with a container id the runtime has not seen before keeps one
      session per container. */
  lemma CreateKeepsOneSessionPerContainer(reg: SessionMap, rt: Runtime, refused: set<ContainerId>, service: string,
                                          user: string, token: string, launch: Option<ContainerId>, hostPorts: seq<string>)
    requires OneSessionPerContainer(reg)
    requires launch.Some? ==> launch.value !in rt
    ensures OneSessionPerContainer(Create(reg, rt, refused, service, user, token, launch, hostPorts).registry)
  {
    var o, r := Create(reg, rt, refused, service, user, token, launch, hostPorts), Reconciled(reg, rt);
    if o.response.Success? {
      var id := SessionIdFor(token);
      forall k | k in o.registry && k != id ensures o.registry[k].containerId != launch.value {
        assert Survives(rt, reg[k]);
      }
    }
  }

  lemma TerminateKeepsOneSessionPerContainer(reg: SessionMap, rt: Runtime, id: SessionId, refused: set<ContainerId>)
    requires OneSessionPerContainer(reg)
    ensures OneSessionPerContainer(Terminate(reg, rt, id, refused).registry)
  {
  }

  // ---------------------------------------------------------------------
  // Deletion

  /** Deleting an unknown id answers 404 and changes nothing at all. */
  lemma TerminateUnknown(reg: SessionMap, rt: Runtime, id: SessionId, refused: set<ContainerId>)
    requires id !in reg
    ensures Terminate(reg, rt, id, refused) == Outcome(reg, rt, Failure(NotFound))
    ensures StatusCode(Terminate(reg, rt, id, refused).response.error) == 404
  {
  }

  /** Deleting a known id removes exactly that key, whether or not its
      container could be removed, and a repeated delete is not found. */
  lemma TerminateKnown(reg: SessionMap, rt: Runtime, id: SessionId, refused: set<ContainerId>, refusedAgain: set<ContainerId>)
    requires id in reg
    ensures var o := Terminate(reg, rt, id, refused);
      && o.response == Success("Session " + id + " cleaned up")
      && o.registry.Keys == reg.Keys - {id}
      && (forall k :: k in o.registry ==> o.registry[k] == reg[k])
      && Terminate(o.registry, o.runtime, id, refusedAgain).response == Failure(NotFound)
      && id !in Reconciled(o.registry, o.runtime)
  {
  }

  /** Deleting a known id removes its container unless the lookup failed or
      the runtime refused, and leaves every other container alone. */
  lemma TerminateRemovesOwnContainer(reg: SessionMap, rt: Runtime, id: SessionId, refused: set<ContainerId>)
    requires id in reg
    ensures var o, c := Terminate(reg, rt, id, refused), reg[id].containerId;
      && (Removable(rt, c, refused) ==> o.runtime == rt - {c})
      && (!Removable(rt, c, refused) ==> o.runtime == rt)
  {
    var o, c := Terminate(reg, rt, id, refused), reg[id].containerId;
    if Removable(rt, c, refused) {
      assert o.runtime.Keys == rt.Keys - {c};
    } else {
      assert o.runtime.Keys == rt.Keys;
    }
  }

  /** Deleting all sessions empties the registry whatever the removals did,
      after which every delete is not found; containers of no record are untouched. */
  lemma TerminateAllEmpties(reg: SessionMap, rt: Runtime, refused: set<ContainerId>, id: SessionId, refusedAgain: set<ContainerId>)
    ensures var o := TerminateAll(reg, rt, refused);
      && o.registry == map[]
      && o.response == Success("All sessions cleaned up")
      && Terminate(o.registry, o.runtime, id, refusedAgain).response == Failure(NotFound)
      && (forall c :: c in rt && c !in ContainerIds(reg) ==> c in o.runtime && o.runtime[c] == rt[c])
      && (forall c :: c in ContainerIds(reg) && Removable(rt, c, refused) ==> c !in o.runtime)
      && (forall c :: c in rt && !(c in ContainerIds(reg) && Removable(rt, c, refused)) ==>
            c in o.runtime && o.runtime[c] == rt[c])
  {
  }
}
