/** Ticket-bound attestation (step 7): a map from sender key to expiry that deletes lazily. */
module Attestation {
  import opened ByteCodec
  import opened Verdicts
  import opened Wrappers

  type Tickets = map<Bytes, int>

  /** A decoded, organiser-signed token is accepted when its key has 32 bytes and it has not
      expired; the clock is read in whole seconds. */
  predicate Acceptable(senderKey: Bytes, exp: int, now: real) {
    |senderKey| == 32 && exp > now.Floor
  }

  function TicketsAfterAdd(tickets: Tickets, senderKey: Bytes, exp: int, now: real): Tickets {
    if Acceptable(senderKey, exp, now) then tickets[senderKey := exp] else tickets
  }

  /** Why the sender is dropped at step 7, if at all. */
  function TicketProblem(tickets: Tickets, senderKey: Bytes, now: real): Option<DropReason> {
    if senderKey !in tickets then Some(NoTicket)
    else if tickets[senderKey] <= now.Floor then Some(TicketExpired)
    else None
  }

  /** An expired ticket is deleted when it is next looked at, and only then. */
  function TicketsAfterCheck(tickets: Tickets, senderKey: Bytes, now: real): Tickets {
    if senderKey in tickets && tickets[senderKey] <= now.Floor then tickets - {senderKey} else tickets
  }

  class AttestationCache {
    var expiry: Tickets

    constructor ()
      ensures expiry == map[]
    {
      expiry := map[];
    }

    method AddToken(senderKey: Bytes, exp: int, now: real) returns (r: Result<Bytes>)
      modifies this
      ensures |senderKey| == 32 && exp > now.Floor ==>
                r == Ok(senderKey) && expiry == old(expiry)[senderKey := exp]
      ensures |senderKey| != 32 || exp <= now.Floor ==> r == Err(BadTicket) && expiry == old(expiry)
      ensures expiry == TicketsAfterAdd(old(expiry), senderKey, exp, now)
    {
      if |senderKey| != 32 {
        return Err(BadTicket);
      }
      if exp <= now.Floor {
        return Err(BadTicket);
      }
      expiry := expiry[senderKey := exp];
      return Ok(senderKey);
    }

    method Check(senderKey: Bytes, now: real) returns (drop: Option<DropReason>)
      modifies this
      ensures drop == None <==> senderKey in old(expiry) && old(expiry)[senderKey] > now.Floor
      ensures drop == Some(NoTicket) <==> senderKey !in old(expiry)
      ensures drop.Some? ==> expiry == old(expiry) - {senderKey}
      ensures drop == None ==> expiry == old(expiry)
      ensures drop == TicketProblem(old(expiry), senderKey, now)
      ensures expiry == TicketsAfterCheck(old(expiry), senderKey, now)
    {
      if senderKey !in expiry {
        return Some(NoTicket);
      }
      var exp := expiry[senderKey];
      if exp <= now.Floor {
        expiry := expiry - {senderKey};
        return Some(TicketExpired);
      }
      return None;
    }
  }
}
