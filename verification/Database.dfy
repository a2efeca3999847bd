/** The part of a database connection that can drop and come back. */
module Database {

  /** One call of `Open`: whether the connection was open and valid when it was made, and whether it was granted. */
  datatype Opening = Opening(alive: bool, granted: bool)

  class Database {
    const name: string
    var isOpen: bool
    var isValid: bool
    /** Counts the successful opens: the number of the server session. */
    var session: nat
    /** Counts all calls of `Open`. */
    var opens: nat
    var subscriptions: set<string>
    /** All calls of `Open` so far, in order. */
    ghost var openings: seq<Opening>

    constructor (name: string)
      ensures this.name == name && !isOpen && session == 0 && opens == 0 && subscriptions == {}
      ensures openings == []
    {
      this.name, isOpen, isValid, session, opens, subscriptions := name, false, true, 0, 0, {};
      openings := [];
    }

    method Open() returns (ok: bool)
      modifies this
      ensures openings == old(openings) + [Opening(old(isOpen && isValid), ok)]
      ensures opens == old(opens) + 1 && subscriptions == old(subscriptions)
      ensures if ok then isOpen && session == old(session) + 1 else !isOpen && session == old(session)
    {
      ghost var alive := isOpen && isValid;
      ok, isValid := *, *;
      openings := openings + [Opening(alive, ok)];
      opens := opens + 1;
      isOpen := ok;
      if ok {
        session := session + 1;
      }
    }

    /** The connection may drop during any request. */
    method MayDrop()
      modifies this`isOpen
      ensures isOpen ==> old(isOpen)
    {
      var dropped: bool := *;
      if dropped {
        isOpen := false;
      }
    }

    /** Takes effect unless the connection is down or drops. */
    method Subscribe(channel: string)
      modifies this`isOpen, this`subscriptions
      ensures isOpen ==> old(isOpen)
      ensures subscriptions == if isOpen then old(subscriptions) + {channel} else old(subscriptions)
    {
      MayDrop();
      if isOpen {
        subscriptions := subscriptions + {channel};
      }
    }

    method Unsubscribe(channel: string)
      modifies this`isOpen, this`subscriptions
      ensures isOpen ==> old(isOpen)
      ensures subscriptions == if isOpen then old(subscriptions) - {channel} else old(subscriptions)
    {
      MayDrop();
      if isOpen {
        subscriptions := subscriptions - {channel};
      }
    }
  }
}
