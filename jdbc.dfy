/**
 * The shared storage connection handed to the transactional DAO methods. Only its
 * open/closed state and its auto-commit mode matter to the core; acquiring it
 * (DatabaseConnection) is outside this model.
 */
module Jdbc {

  class Connection {
    var closed: bool
    var autoCommit: bool

    /** A freshly acquired connection: open, in auto-commit mode. */
    constructor ()
      ensures !closed && autoCommit
    {
      closed := false;
      autoCommit := true;
    }

    method SetAutoCommit(on: bool)
      modifies this
      ensures autoCommit == on && closed == old(closed)
    {
      autoCommit := on;
    }

    method Close()
      modifies this
      ensures closed && autoCommit == old(autoCommit)
    {
      closed := true;
    }
  }
}
