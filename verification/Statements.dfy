/** How a database statement ends for its caller. */
module Statements {

  /** A statement may also throw after it was applied, when its reply is lost. */
  datatype Reply = Done | ThrewApplied | ThrewLost

  predicate Applied(r: Reply) { r != ThrewLost }
}
