/** The session registry: records keyed by session id, persisted as one JSON
    document that every operation reads whole and writes whole. */
module Store {

  type SessionId = string
  type ContainerId = string

  /** One entry of the sessions document. */
  datatype SessionRecord = SessionRecord(
    containerId: ContainerId,
    port: int,
    service: string,
    user: string,
    containerName: string)

  type SessionMap = map<SessionId, SessionRecord>

  /** What the sessions file holds: nothing yet, text that does not parse,
      or a parsed document. */
  datatype StoreFile = Missing | Corrupt | Document(sessions: SessionMap)

  /** `load_sessions`: a missing or unreadable file reads as the empty registry. */
  function Load(f: StoreFile): (m: SessionMap)
    ensures f.Document? ==> m == f.sessions
    ensures !f.Document? ==> m == map[]
  {
    match f
    case Document(sessions) => sessions
    case _ => map[]
  }

  /** `save_sessions`: the whole registry replaces the file's content. */
  function Save(m: SessionMap): (f: StoreFile)
    ensures f.Document? && Load(f) == m
  {
    Document(m)
  }

}
