/**
 * The JSON exchanged between the backend and the client: the body of
 * `/status` (the backend's `progress_state`) and the photo descriptors of
 * `/photos`.
 */
module Protocol {

  /** `progress_state["status"]`: "idle", "indexing" or "analyzing". */
  datatype Status = Idle | Indexing | Analyzing

  /** One read of `/status`; the counters are never negative on the backend. */
  datatype ProcState = ProcState(
    status: Status,
    totalQueued: nat,
    processedCount: nat,
    currentFile: string)

  /** The state both sides start from. */
  const InitialProcState := ProcState(Idle, 0, 0, "")

  /** One entry of `/photos`. */
  datatype Photo = Photo(id: string, name: string, src: string, album: string)
}
