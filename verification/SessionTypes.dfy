/** What every part of the session registry shares. */
module SessionTypes {
  type Id = string

  datatype SessionStatus = Running | WaitingForInput | Idle | Error | Starting | Stopped | Queued
}
