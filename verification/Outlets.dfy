/** The sending side of an edge, whose receiver may go away. */
module Outlets {
  import opened Wrappers
  import opened Records

  /** `room` is how many records are taken before the receiver is gone; `None` if it stays. */
  class Outlet {
    const room: Option<nat>
    var sent: seq<Record>

    constructor (room: Option<nat>)
      ensures this.room == room && sent == []
    {
      this.room, sent := room, [];
    }

    predicate Gone()
      reads this
    {
      room.Some? && |sent| >= room.value
    }

    method Send(rec: Record) returns (ok: bool)
      modifies this
      ensures ok == !old(Gone())
      ensures sent == if ok then old(sent) + [rec] else old(sent)
    {
      ok := !Gone();
      if ok {
        sent := sent + [rec];
      }
    }
  }
}
