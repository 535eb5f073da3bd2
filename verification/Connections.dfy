/**
 The database connection as the context layer meets it: a vendor, a flag that
 says whether the driver connection is open, an aborted flag, the two
 transaction-local variables, and the stack of open transaction frames (the
 outermost transaction first, then its savepoints). Each frame holds the
 variables as they were when it was opened.
 */
module Connections {

  /** The tenant variable ("" when unset) and the admin flag. */
  datatype Vars = Vars(tenant: string, admin: bool)

  /** The session-level values: nothing in this package ever sets them. */
  const NOTHING := Vars("", false)

  datatype Conn = Conn(postgres: bool, open: bool, aborted: bool, vars: Vars, frames: seq<Vars>)
  {
    predicate InAtomicBlock() {
      frames != []
    }

    /** `set_config(name, value, true)`: without a transaction it lasts for its own statement only. */
    function SetConfig(v: Vars): Conn {
      if InAtomicBlock() then this.(vars := v) else this
    }

    /** Open a transaction, or a savepoint when one is already open. */
    function Begin(): Conn {
      this.(open := true, frames := frames + [vars])
    }

    /**
     Leave the innermost frame. Rolling back restores its snapshot and clears
     the aborted flag; releasing a savepoint keeps the variables; ending the
     outermost transaction either way drops transaction-local values. Leaving
     an aborted frame is always a rollback.
     */
    function End(rollback: bool): Conn
      requires InAtomicBlock()
    {
      var n := |frames| - 1;
      var restore := rollback || aborted || n == 0;
      this.(aborted := false, frames := frames[..n], vars := if restore then frames[n] else vars)
    }

    /** A statement that fails: on PostgreSQL it aborts the transaction it runs in. */
    function Fail(): Conn {
      this.(open := true, aborted := aborted || (postgres && InAtomicBlock()))
    }
  }

  type Connections = map<string, Conn>
}
