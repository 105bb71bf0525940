/** The states of a process table entry, as kernel/proc.h names them. */
module ProcStates {
  datatype PState = UNUSED | USED | SLEEPING | RUNNABLE | RUNNING | ZOMBIE

  /** An entry with this state and channel sleeps on `chan`. */
  predicate Waits(state: PState, on: int, chan: int) {
    state == SLEEPING && on == chan
  }
}
