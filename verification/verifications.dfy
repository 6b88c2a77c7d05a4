/** The verification-ticket store: one-time codes tied to an e-mail address.
    Tickets carry no purpose; lookup is by e-mail alone. */
module Verifications {
  import opened Outcomes
  import opened Environment
  import opened Helper
  import Tables

  type TicketId = nat

  datatype Ticket = Ticket(email: string, passcode: string, tries: int, expiresAt: int)

  type Tickets = map<TicketId, Ticket>

  /** Length of a generated passcode. */
  const CODE_LENGTH: nat := 6

  /** Lifetime of a ticket: ten minutes, in milliseconds. */
  const TTL_MS: int := 10 * 60 * 1000

  /** `genCode(length)`: a code of exactly `length` characters drawn from the
      entropy source. The generator's own alphabet is not part of this model;
      decimal digits stand in for it. */
  function GenCode(entropy: nat, length: nat): (code: string)
    ensures |code| == length
    ensures forall i :: 0 <= i < |code| ==> '0' <= code[i] <= '9'
  {
    if length == 0 then []
    else [(('0' as int) + entropy % 10) as char] + GenCode(entropy / 10, length - 1)
  }

  /** The store and outbox after a ticket was issued, and the new ticket's id. */
  datatype Issued = Issued(tickets: Tickets, outbox: seq<Mail>, id: TicketId)

  /** `createVerification(email, subject, template)`: a new ticket with a
      six-character code, no tries and a ten-minute lifetime is added beside
      every existing ticket, and the template rendered with exactly the
      stored code and expiry is mailed to that address. Dispatch failure
      does not undo the ticket. */
  function CreateVerification(tickets: Tickets, outbox: seq<Mail>, email: string,
                              purpose: Purpose, env: Env): (r: Issued)
    ensures r.id !in tickets && r.id in r.tickets
    ensures r.tickets.Keys == tickets.Keys + {r.id}
    ensures forall id :: id in tickets ==> r.tickets[id] == tickets[id]
    ensures r.tickets[r.id].email == email
    ensures r.tickets[r.id].tries == 0
    ensures r.tickets[r.id].expiresAt == env.now + TTL_MS
    ensures |r.tickets[r.id].passcode| == CODE_LENGTH
    ensures env.mailDelivered <==> |r.outbox| == |outbox| + 1
    ensures outbox <= r.outbox
    ensures env.mailDelivered ==>
              r.outbox[|outbox|] ==
              Mail(email, SENDER, Subject(purpose),
                   CodeNotice(purpose, r.tickets[r.id].passcode, r.tickets[r.id].expiresAt))
  {
    var id := Tables.Fresh(tickets.Keys);
    var t := Ticket(email, GenCode(env.entropy, CODE_LENGTH), 0, env.now + TTL_MS);
    var text := CodeNotice(purpose, t.passcode, t.expiresAt);
    Issued(tickets[id := t], SendEmail(outbox, email, text, Subject(purpose), env.mailDelivered), id)
  }

  /** `findOne(email)`: some ticket for that address, whatever its purpose,
      or none exactly when the address holds no ticket. */
  function FindOne(tickets: Tickets, email: string): (r: Option<TicketId>)
    ensures r.Some? ==> r.value in tickets && tickets[r.value].email == email
    ensures r.None? <==> forall id :: id in tickets ==> tickets[id].email != email
  {
    Tables.FindKey(tickets, (t: Ticket) => t.email == email)
  }

  /** `deleteVerification(id)`: that ticket is gone, every other ticket is
      kept unchanged. */
  function DeleteVerification(tickets: Tickets, id: TicketId): (r: Tickets)
    ensures id !in r
    ensures r.Keys == tickets.Keys - {id}
    ensures forall k :: k in r ==> r[k] == tickets[k]
  {
    tickets - {id}
  }

  /** Issuing never retires an older ticket: an address that already held a
      ticket afterwards holds two distinct ones, the old one unchanged. */
  lemma CreateKeepsOlderTickets(tickets: Tickets, outbox: seq<Mail>, email: string,
                                purpose: Purpose, env: Env, old_id: TicketId)
    requires old_id in tickets && tickets[old_id].email == email
    ensures var r := CreateVerification(tickets, outbox, email, purpose, env);
            && old_id in r.tickets && r.tickets[old_id] == tickets[old_id]
            && r.id != old_id && r.tickets[r.id].email == email
  {
  }
}
