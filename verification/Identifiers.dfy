/** Identifiers shared by the agent's and the network's state. */
module Identifiers {
  /** An application's UUID. */
  datatype AppId = AppId(uuid: nat)
}
