/** The session manager service: the sessions file and the container runtime
    as the state of one object, and the four HTTP operations that change them,
    each proved against its function in `Lifecycle`. */
module Manager {
  import opened Wrappers
  import opened Decimal
  import opened Profiles
  import opened Store
  import opened Lifecycle

  class SessionManager {
    /** The sessions file under DATA_DIR. */
    var file: StoreFile
    /** What the container runtime knows about each container id. */
    var runtime: Runtime

    /** The registry as `load_sessions` reads it now. */
    function Registry(): SessionMap
      reads this
    {
      Load(file)
    }

    constructor (file: StoreFile, runtime: Runtime)
      ensures this.file == file && this.runtime == runtime
    {
      this.file := file;
      this.runtime := runtime;
    }

    /** `cleanup_dead_containers`: classify every record by its container,
        force-remove the stopped ones, then drop the collected ids and write
        the file only if there was one. `refused` are the containers whose
        forced removal raises. */
    method Reconcile(refused: set<ContainerId>)
      modifies this
      ensures Registry() == Reconciled(old(Registry()), old(runtime))
      ensures runtime == Reaped(old(Registry()), old(runtime), refused)
      ensures file == ReconcileFile(old(file), old(runtime))
    {
      var sessions := Load(file);
      ghost var rt0 := runtime;
      var toRemove: seq<SessionId> := [];
      var pending := sessions.Keys;
      while pending != {}
        invariant pending <= sessions.Keys && file == old(file)
        invariant forall id :: id in toRemove <==> id in sessions && id !in pending && !Survives(rt0, sessions[id])
        invariant runtime == RemoveContainers(rt0, StoppedContainers(sessions - pending, rt0), refused)
        decreases pending
      {
        var id :| id in pending;
        var c := sessions[id].containerId;
        ghost var before := sessions - pending;
        pending := pending - {id};
        assert sessions - pending == before[id := sessions[id]];
        ReconcileStep(before, rt0, refused, id, sessions[id]);
        if c !in runtime {
          // docker.errors.NotFound
          toRemove := toRemove + [id];
        } else if runtime[c].state == Stopped {
          toRemove := toRemove + [id];
          if c !in refused {
            runtime := runtime - {c};
          }
        } else if runtime[c].state == QueryError {
          // any other exception: logged, record kept
        }
      }
      assert sessions - pending == sessions;
      ghost var s0, rt1 := sessions, runtime;
      for i := 0 to |toRemove|
        invariant sessions == s0 - (set k | 0 <= k < i :: toRemove[k])
        invariant file == old(file) && runtime == rt1
      {
        assert (set k | 0 <= k < i + 1 :: toRemove[k]) == (set k | 0 <= k < i :: toRemove[k]) + {toRemove[i]};
        sessions := sessions - {toRemove[i]};
      }
      CollectedAreDead(s0, rt0, toRemove);
      if toRemove != [] {
        file := Save(sessions);
      }
    }

    /** `list_sessions`: reconcile, then read the registry. */
    method List(refused: set<ContainerId>) returns (sessions: SessionMap)
      modifies this
      ensures sessions == Registry() == Reconciled(old(Registry()), old(runtime))
      ensures runtime == Reaped(old(Registry()), old(runtime), refused)
      ensures file == ReconcileFile(old(file), old(runtime))
    {
      Reconcile(refused);
      sessions := Load(file);
    }

    /** `create_session`. `token` stands for the first eight characters of the
        random UUID; `launch` is the id of the container `containers.run`
        started, or None when it raised; `hostPorts` are the HostPort values
        of the 6901/tcp bindings after the reload, empty when there are none. */
    method Create(service: string, user: string, token: string, launch: Option<ContainerId>,
                  hostPorts: seq<string>, refused: set<ContainerId>)
      returns (response: Result<SessionResponse, ApiError>)
      modifies this
      ensures var o := Lifecycle.Create(old(Registry()), old(runtime), refused, service, user, token, launch, hostPorts);
        Registry() == o.registry && runtime == o.runtime && response == o.response
      ensures response.Success? ==> file == Save(Registry())
      ensures response.Failure? ==> file == ReconcileFile(old(file), old(runtime))
    {
      Reconcile(refused);
      var id := SessionIdFor(token);
      var config := ResolveService(service);
      if launch == None {
        response := Failure(ProvisioningError(StartFailed));
        return;
      }
      var c := launch.value;
      runtime := runtime[c := Container(ContainerNameFor(id), config, Running)];
      if |hostPorts| == 0 {
        response := Failure(ProvisioningError(NoPortBinding));
        return;
      }
      var hostPort := hostPorts[0];
      var sessions := Load(file);
      var port := ParseDecimal(hostPort);
      if port == None {
        response := Failure(ProvisioningError(InvalidHostPort));
        return;
      }
      sessions := sessions[id := SessionRecord(c, port.value, service, user, ContainerNameFor(id))];
      file := Save(sessions);
      response := Success(SessionResponse(id, UrlPrefix + hostPort, port.value));
    }

    /** `cleanup_session`: 404 for an unknown id; otherwise best-effort
        removal of its container and deletion of the record. */
    method Delete(id: SessionId, refused: set<ContainerId>) returns (response: Result<string, ApiError>)
      modifies this
      ensures var o := Terminate(old(Registry()), old(runtime), id, refused);
        Registry() == o.registry && runtime == o.runtime && response == o.response
      ensures response.Failure? ==> file == old(file)
      ensures response.Success? ==> file == Save(Registry())
    {
      var sessions := Load(file);
      if id !in sessions {
        response := Failure(NotFound);
        return;
      }
      var c := sessions[id].containerId;
      if c in runtime && runtime[c].state != QueryError && c !in refused {
        runtime := runtime - {c};
      }
      assert runtime == RemoveContainers(old(runtime), {c}, refused);
      sessions := sessions - {id};
      file := Save(sessions);
      response := Success(CleanedUpMessage(id));
    }

    /** `cleanup_all_sessions`: best-effort removal of every record's
        container, then an empty registry whatever those removals did. */
    method DeleteAll(refused: set<ContainerId>) returns (message: string)
      modifies this
      ensures var o := TerminateAll(old(Registry()), old(runtime), refused);
        Registry() == o.registry && runtime == o.runtime && Success(message) == o.response
      ensures file == Save(map[])
    {
      var sessions := Load(file);
      ghost var rt0 := runtime;
      var pending := sessions.Keys;
      while pending != {}
        invariant pending <= sessions.Keys
        invariant runtime == RemoveContainers(rt0, ContainerIds(sessions - pending), refused)
        decreases pending
      {
        var id :| id in pending;
        var c := sessions[id].containerId;
        ghost var before := sessions - pending;
        pending := pending - {id};
        assert sessions - pending == before[id := sessions[id]];
        ContainerIdsAdd(before, id, sessions[id]);
        RemoveOneMore(rt0, ContainerIds(before), c, refused);
        if c in runtime && runtime[c].state != QueryError && c !in refused {
          runtime := runtime - {c};
        }
      }
      assert sessions - pending == sessions;
      file := Save(map[]);
      message := AllCleanedUpMessage;
    }
  }

  /** The ids the classification loop collects are exactly the dead ones, so
      dropping them leaves the reconciled registry. */
  lemma CollectedAreDead(sessions: SessionMap, rt: Runtime, toRemove: seq<SessionId>)
    requires forall id :: id in toRemove <==> id in sessions && !Survives(rt, sessions[id])
    ensures sessions - (set k | 0 <= k < |toRemove| :: toRemove[k]) == Reconciled(sessions, rt)
    ensures toRemove == [] <==> Dead(sessions, rt) == {}
  {
    var collected := set k | 0 <= k < |toRemove| :: toRemove[k];
    assert collected == Dead(sessions, rt) by {
      forall id | id in Dead(sessions, rt) ensures id in collected {
        assert id in toRemove;
      }
    }
    assert (sessions - collected).Keys == Reconciled(sessions, rt).Keys;
    if toRemove != [] {
      assert toRemove[0] in Dead(sessions, rt);
    }
  }

  /** One turn of the classification loop: the container lookup answers
      NotFound or "not running" exactly for a record that does not survive,
      and removing that container extends the batch of reaped containers. */
  lemma ReconcileStep(before: SessionMap, rt0: Runtime, refused: set<ContainerId>, id: SessionId, rec: SessionRecord)
    requires id !in before
    ensures var r, c := RemoveContainers(rt0, StoppedContainers(before, rt0), refused), rec.containerId;
      && ((c !in r || r[c].state == Stopped) <==> !Survives(rt0, rec))
      && RemoveContainers(rt0, StoppedContainers(before[id := rec], rt0), refused)
         == if c in r && r[c].state == Stopped && c !in refused then r - {c} else r
  {
    var c := rec.containerId;
    StoppedContainersAdd(before, rt0, id, rec);
    RemoveOneMore(rt0, StoppedContainers(before, rt0), c, refused);
    if c in rt0 && rt0[c].state == Stopped {
      assert StoppedContainers(before, rt0) + {c} == StoppedContainers(before[id := rec], rt0);
    } else {
      assert StoppedContainers(before, rt0) == StoppedContainers(before[id := rec], rt0);
    }
  }

  /** Removing one more container after a batch is the batch with it added. */
  lemma RemoveOneMore(rt: Runtime, cs: set<ContainerId>, c: ContainerId, refused: set<ContainerId>)
    ensures var r := RemoveContainers(rt, cs, refused);
      RemoveContainers(rt, cs + {c}, refused) == if Removable(r, c, refused) then r - {c} else r
  {
    var r := RemoveContainers(rt, cs, refused);
    var r' := RemoveContainers(rt, cs + {c}, refused);
    if Removable(r, c, refused) {
      assert r'.Keys == r.Keys - {c};
    } else {
      assert r'.Keys == r.Keys;
    }
  }

  lemma ContainerIdsAdd(reg: SessionMap, id: SessionId, rec: SessionRecord)
    requires id !in reg
    ensures ContainerIds(reg[id := rec]) == ContainerIds(reg) + {rec.containerId}
  {
    var m := reg[id := rec];
    forall c | c in ContainerIds(m) ensures c in ContainerIds(reg) + {rec.containerId} {
      var k :| k in m && m[k].containerId == c;
      if k != id { assert reg[k].containerId == c; }
    }
    forall c | c in ContainerIds(reg) ensures c in ContainerIds(m) {
      var k :| k in reg && reg[k].containerId == c;
      assert m[k].containerId == c;
    }
    assert rec.containerId == m[id].containerId;
  }

  lemma StoppedContainersAdd(reg: SessionMap, rt: Runtime, id: SessionId, rec: SessionRecord)
    requires id !in reg
    ensures var c := rec.containerId;
      StoppedContainers(reg[id := rec], rt)
        == StoppedContainers(reg, rt) + (if c in rt && rt[c].state == Stopped then {c} else {})
  {
    ContainerIdsAdd(reg, id, rec);
  }
}
