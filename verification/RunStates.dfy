/** The states of a dag_run row. */
module RunStates {
  datatype RunState = RunQueued | RunRunning | RunSuccess | RunFailed
}
