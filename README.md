# Session manager lifecycle, modelled in Dafny

The session manager starts one browser container per user session (a KasmVNC
Chrome image), records which container backs which session in a JSON sessions
file, and drops records whose container has stopped or disappeared. This
project models that lifecycle controller, `session-manager/manager.py`:

- the sessions file, read whole and written whole (`load_sessions`, `save_sessions`);
- reconciliation against the container runtime (`cleanup_dead_containers`),
  which runs before every listing and every creation;
- session creation (`create_session`): the service-name lookup that falls back
  to `chrome`, the container start, reading the host port the runtime assigned,
  and storing the record only on success;
- deleting one session (`cleanup_session`) and deleting all (`cleanup_all_sessions`),
  both with best-effort container removal.

Modules, leaf first:

| file | module | what it holds |
|---|---|---|
| wrappers.dfy | `Wrappers` | `Option`, `Result` |
| decimal.dfy | `Decimal` | `int(host_port)` on decimal numerals and the numeral of a number |
| profiles.dfy | `Profiles` | the three service configurations and the lookup with fallback |
| store.dfy | `Store` | session records and the sessions file |
| lifecycle.dfy | `Lifecycle` | the container runtime's state and every operation as a function of registry and runtime |
| properties.dfy | `Properties` | lemmas about those functions |
| manager.dfy | `Manager` | class `SessionManager`: the file and the runtime as fields, one method per HTTP operation, each proved against its `Lifecycle` function |

How the outside world is represented:

- The Docker daemon is the field `runtime: map<ContainerId, Container>`. A
  container's `state` is `Running`, `Stopped` (any status other than
  "running") or `QueryError` (looking it up raises an exception other than
  NotFound). An id absent from the map is NotFound.
- A forced removal that raises is given as the parameter `refused`: the
  containers whose removal fails during this call. Removal is never tried for a
  `QueryError` container, because the lookup before it already raised.
- `containers.run` is the parameter `launch`: the new container's id, or `None`
  when the start raised. The port bindings after `container.reload()` are the
  parameter `hostPorts`: the `HostPort` strings under `6901/tcp`, empty when
  there is no binding.
- `uuid.uuid4()` is the parameter `token`, its first eight characters. The
  session id is then `"sess-" + token` and the container name is
  `"session-" + session id`.
- The sessions file is `StoreFile = Missing | Corrupt | Document(sessions)`.
  A missing or unparsable file loads as the empty registry.

Points where the code's behaviour is easy to misread, modelled as the code has it:

- The request's `service` field is required, with no default at the API layer.
  Only an unknown name falls back to the `chrome` configuration. The record
  stores the name as it was requested, not the resolved one.
- Deleting one session and deleting all sessions do not reconcile first.
  Only listing and creation do.
- The code never checks a new session id for a collision. `Provision`
  overwrites an existing key, as the dict assignment would. The lemmas that
  count entries require the id to be fresh.

## Model

| member | source | states |
|---|---|---|
| Decimal.ParseDecimal | session-manager/manager.py:162 | a host port parses exactly when it is a non-empty string of decimal digits |
| Decimal.DecimalString | session-manager/manager.py:173 | the numeral of a number is non-empty, all digits, with no leading zero |
| Decimal.ParseDecimalString | session-manager/manager.py:162-174 | parsing the numeral of `n` gives `n` back |
| Decimal.DecimalStringOfParse | session-manager/manager.py:162-174 | a numeral with no leading zero is the numeral of its parsed value, so port and URL agree |
| Profiles.ResolveService | session-manager/manager.py:112-135 | the lookup never fails: every service name resolves to one of the three configurations |
| Profiles.ResolveKnownServices | session-manager/manager.py:112-133 | `replit` and `codesandbox` open their own start pages, `chrome` opens none |
| Profiles.ResolveUnknownService | session-manager/manager.py:135 | any other name resolves to the `chrome` configuration |
| Profiles.ResolveAlwaysKasm | session-manager/manager.py:113-131 | every configuration runs the KasmVNC Chrome image with the VNC password set |
| Store.Load | session-manager/manager.py:46-54 | a missing or corrupt file reads as the empty registry, a document as its content |
| Store.Save | session-manager/manager.py:56-61 | saving replaces the file with a document that loads as exactly the saved registry |
| Lifecycle.StatusCode | session-manager/manager.py:154-187 | the answer is 404 exactly for an unknown session, and 500 for every provisioning error |
| Lifecycle.SessionIdFor | session-manager/manager.py:107 | the session id is `sess-` followed by the token, so distinct tokens give distinct ids |
| Lifecycle.ContainerNameFor | session-manager/manager.py:145 | the container name is `session-` followed by the session id, so distinct sessions give distinct names |
| Lifecycle.Reconciled | session-manager/manager.py:63-88 | reconciliation keeps a record exactly when its container survives, never adds a key and never changes a kept record |
| Lifecycle.Dead | session-manager/manager.py:66-80 | the collected ids are exactly the keys reconciliation drops |
| Lifecycle.RemoveContainers | session-manager/manager.py:74-77 | best-effort removal deletes exactly the listed containers that exist, were looked up and were not refused; the rest stay unchanged |
| Lifecycle.Reaped | session-manager/manager.py:71-77 | reconciliation removes exactly the stopped containers some record refers to whose removal is not refused, and leaves every other container unchanged |
| Lifecycle.ReconcileFile | session-manager/manager.py:84-88 | after reconciliation the file loads as the reconciled registry, and it is untouched when nothing was removed |
| Lifecycle.NothingDeadKeepsAll | session-manager/manager.py:84-88 | nothing to remove holds exactly when reconciliation leaves the registry unchanged |
| Lifecycle.Provision | session-manager/manager.py:135-179 | creation succeeds exactly with a started container, a binding and a numeric port. Failure leaves the registry unchanged. Success adds one key, with the reported port. A started container is the resolved configuration, running under the name `session-<id>`, whatever the outcome; every other container is unchanged |
| Lifecycle.Create | session-manager/manager.py:102-179 | creation only adds the new session's key to the reconciled registry, and the response names that key |
| Lifecycle.Terminate | session-manager/manager.py:181-204 | deletion fails exactly for an unknown id, then with NotFound and no runtime change; the registry is always the old one minus the id |
| Lifecycle.TerminateAll | session-manager/manager.py:206-221 | deleting all always ends with the empty registry and never adds a container |
| Properties.ReconcileClassification | session-manager/manager.py:68-85 | running and query-error records are kept unchanged, stopped and missing ones are dropped |
| Properties.SurvivorsStillTracked | session-manager/manager.py:70-85 | every kept record still finds its container, in the same state, after reconciliation |
| Properties.ReconcileIdempotent | session-manager/manager.py:63-88 | a second reconciliation with no runtime change keeps every record, finds nothing to remove and removes no container |
| Properties.ReconcileFileIdempotent | session-manager/manager.py:84-88 | a second reconciliation does not write the file again |
| Properties.CreateSucceedsExactly | session-manager/manager.py:138-179 | a create succeeds exactly when the start succeeded, a 6901/tcp binding exists and its host port is a numeral |
| Properties.CreateAddsOneRecord | session-manager/manager.py:105-175 | with a fresh id, success adds exactly one entry to the reconciled registry (the container, the assigned port, the request's service and user, the name `session-<id>`). The response carries the same id, the same port and `http://localhost:` plus the host port |
| Properties.CreateReportsPort | session-manager/manager.py:156-174 | when the runtime reports the numeral of `p`, the stored and reported port is `p` and the URL is built from that port |
| Properties.CreateFailureKeepsRegistry | session-manager/manager.py:140-154 | a failed create leaves the reconciled registry. A container that was already started stays running with the resolved configuration and its name; every other container is as reconciliation left it |
| Properties.FailedCreateOrphansContainer | session-manager/manager.py:151-154 | the container left by a failed create is referenced by no record |
| Properties.CreatedSessionIsListed | session-manager/manager.py:95-100 | right after a successful create, the next listing contains the new id with the reported port |
| Properties.ReconcileKeepsOneSessionPerContainer | session-manager/manager.py:84-85 | reconciliation keeps the one-session-per-container invariant |
| Properties.CreateKeepsOneSessionPerContainer | session-manager/manager.py:159-167 | creating with a container id the runtime had not seen keeps one session per container |
| Properties.TerminateKeepsOneSessionPerContainer | session-manager/manager.py:200-202 | deleting one session keeps one session per container |
| Properties.TerminateUnknown | session-manager/manager.py:186-187 | deleting an unknown id answers 404 and changes neither registry nor runtime |
| Properties.TerminateKnown | session-manager/manager.py:189-204 | deleting a known id removes exactly that key whatever the removal did. A second delete is not found, and no later listing shows the id |
| Properties.TerminateRemovesOwnContainer | session-manager/manager.py:191-198 | deletion removes the session's container unless the lookup failed or the removal was refused, and no other container |
| Properties.TerminateAllEmpties | session-manager/manager.py:206-221 | deleting all leaves the empty registry, after which every delete is not found. It removes every removable container of a record. Every other container, including a record's container whose lookup failed or whose removal was refused, stays unchanged |
| Manager.SessionManager.Reconcile | session-manager/manager.py:63-88 | the loop over records and the loop over collected ids leave exactly `Reconciled`, the runtime `Reaped` and the file `ReconcileFile` |
| Manager.SessionManager.List | session-manager/manager.py:95-100 | listing returns the reconciled registry |
| Manager.SessionManager.Create | session-manager/manager.py:102-179 | the new registry, runtime and response are those of `Lifecycle.Create`; the file is written on success and otherwise only by reconciliation |
| Manager.SessionManager.Delete | session-manager/manager.py:181-204 | the new state and answer are those of `Lifecycle.Terminate`; an unknown id leaves the file untouched |
| Manager.SessionManager.DeleteAll | session-manager/manager.py:206-221 | the loop over records leaves the runtime of `Lifecycle.TerminateAll`; the file is then the empty document |
| Manager.ReconcileStep | session-manager/manager.py:68-82 | one turn of the classification loop collects exactly the records that do not survive, and extends the removed containers |
| Manager.CollectedAreDead | session-manager/manager.py:84-88 | dropping the collected ids gives the reconciled registry, and the list is empty exactly when nothing is dead |

## Left out

- Docker SDK calls are the abstract `runtime` map plus the `launch`, `hostPorts` and `refused` parameters. The model does not cover image pulls, `shm_size`, the detach and remove flags, or what the container does once started.
- Decimal.ParseDecimal: accepts only non-empty strings of ASCII digits. Python's `int()` also accepts surrounding whitespace, a sign, underscores between digits and non-ASCII digits. The runtime reports host ports as plain numerals.
- Lifecycle.Provision: a `containers.run` that raises (`launch` is `None`) is modelled as leaving the runtime unchanged. The Docker library creates the container before starting it, and `remove=False` (manager.py:146) keeps it. So a start that fails may leave a created, not-running `session-<id>` container that no record refers to, a second orphan beside the one after a missing port binding.
- A sessions file that is valid JSON but not an object (`[]`, `null`, `42`) is not modelled. `load_sessions` returns it as it is (manager.py:50). Reconciliation then raises at `sessions.items()` (68) outside any `try`, so listing and creation fail with an unhandled 500. Delete-all fails at 211 before it resets the file, and delete answers 404 or fails. `save_sessions` always writes an object, so such a file arises only from an outside edit.
- Records that parse as JSON but lack a field are not modelled. For example, a record with no `container_id` raises a `KeyError` in the lookup. Reconciliation catches it like a failed lookup and keeps the record (manager.py:81-82). Delete and delete-all catch it and still delete the record (197-198, 216-217). Every record in the model has all its fields.
- `save_sessions` logs and ignores write errors. The model treats every write as succeeding.
- A failure of `container.reload()` after a successful start is not separated from a missing binding. Both end in a 500 error, with the container left running; `hostPorts` is empty in the model.
- Exception messages in error details are not modelled. The answer is modelled as its kind (`StatusCode`) plus the fixed success messages.
- Concurrency is out of scope: the model is single-threaded. The lost update between two concurrent whole-file writes is therefore not represented.
- FastAPI routing, Pydantic validation, uvicorn startup, logging, and the constant health response of `root()` are HTTP plumbing and carry no lifecycle logic.
- The random session id is the `token` parameter. Uniqueness of host ports comes from the runtime's allocator, so it is not a property of this code.
- slack-bot/bot.py and the test-*.py scripts only call the HTTP API. They are not part of this model.
