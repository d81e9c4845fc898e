/**
 * AndroidSessionManager.findOldSession: finds the running session that was
 * started from the same run configuration with the same executor.
 */
module Sessions {
  import opened Wrappers

  /**
   * The session data attached to a running process: the id of the run
   * configuration that started it and the id of its executor (run, debug, ...).
   * The remaining state of a session is not inspected and is not modelled.
   */
  datatype AndroidSessionInfo = AndroidSessionInfo(runConfigurationId: int, executorId: string)

  /** A process handler's session info matches when it is present and both ids agree. */
  predicate Matches(info: Option<AndroidSessionInfo>, executorId: string, currentId: int) {
    info.Some? && currentId == info.value.runConfigurationId && executorId == info.value.executorId
  }

  /**
   * The first running process (in the order the execution manager lists them)
   * whose session info matches; processes without session info are skipped.
   * `processes` holds each running process's session info, None when it has none.
   */
  function FindOldSession(processes: seq<Option<AndroidSessionInfo>>, executorId: string, currentId: int)
    : (r: Option<AndroidSessionInfo>)
    ensures r.Some? ==> r.value.runConfigurationId == currentId && r.value.executorId == executorId
    ensures r.Some? ==> r in processes
    ensures r.None? <==> forall k :: 0 <= k < |processes| ==> !Matches(processes[k], executorId, currentId)
  {
    if processes == [] then None
    else if Matches(processes[0], executorId, currentId) then processes[0]
    else FindOldSession(processes[1..], executorId, currentId)
  }

  /** The result is the match with the smallest index: every earlier process fails to match. */
  lemma {:induction false} FindOldSessionIsFirst(processes: seq<Option<AndroidSessionInfo>>, executorId: string,
                                                 currentId: int, k: nat)
    requires k < |processes| && Matches(processes[k], executorId, currentId)
    requires forall j :: 0 <= j < k ==> !Matches(processes[j], executorId, currentId)
    ensures FindOldSession(processes, executorId, currentId) == processes[k]
  {
    if k > 0 {
      FindOldSessionIsFirst(processes[1..], executorId, currentId, k - 1);
    }
  }

  /** Processes listed after a match never change the answer. */
  lemma {:induction false} FindOldSessionIgnoresLater(processes: seq<Option<AndroidSessionInfo>>,
                                                      later: seq<Option<AndroidSessionInfo>>,
                                                      executorId: string, currentId: int)
    requires FindOldSession(processes, executorId, currentId).Some?
    ensures FindOldSession(processes + later, executorId, currentId) == FindOldSession(processes, executorId, currentId)
  {
    assert processes != [];
    if !Matches(processes[0], executorId, currentId) {
      assert (processes + later)[1..] == processes[1..] + later;
      FindOldSessionIgnoresLater(processes[1..], later, executorId, currentId);
    }
  }
}
