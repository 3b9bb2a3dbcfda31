/** The input validator of the booking application (validateUserInput). */
module Validation {
  import opened GoStrings

  /** The verdict of the validator: the input is acceptable, or the first rule
      it breaks. A ticket-count error carries the upper bound it reports, the
      number of tickets still available. */
  datatype Verdict = Ok | InvalidName | InvalidEmail | InvalidTicketCount(bound: nat)

  /** Both names are at least two characters long. */
  predicate NamesOk(firstName: string, lastName: string)
  {
    |firstName| >= 2 && |lastName| >= 2
  }

  /** The three business rules together: names of at least two characters, an
      email holding an '@', and a request of at least one ticket and at most
      the number still available. */
  predicate Acceptable(firstName: string, lastName: string, email: string, userTickets: nat, remaining: nat)
  {
    NamesOk(firstName, lastName) && '@' in email && 1 <= userTickets <= remaining
  }

  /** The validator. `remaining` is the global remaining-ticket counter that the
      source reads at the moment of the call. The rules are tried in order and
      the first that fails decides the verdict. */
  function Validate(firstName: string, lastName: string, email: string, userTickets: nat, remaining: nat): (r: Verdict)
    ensures r == Ok <==> Acceptable(firstName, lastName, email, userTickets, remaining)
    // a name error is reported whenever a name is too short, whatever else is wrong
    ensures r == InvalidName <==> !NamesOk(firstName, lastName)
    // an email error only when the names pass
    ensures r == InvalidEmail <==> NamesOk(firstName, lastName) && '@' !in email
    // a ticket-count error only when names and email pass; it reports the current bound
    ensures r.InvalidTicketCount? <==>
              NamesOk(firstName, lastName) && '@' in email && (userTickets == 0 || userTickets > remaining)
    ensures r.InvalidTicketCount? ==> r.bound == remaining
  {
    ContainsChar(email, '@');
    if |firstName| < 2 || |lastName| < 2 then
      InvalidName
    else if !Contains(email, "@") then
      InvalidEmail
    else if userTickets <= 0 || userTickets > remaining then
      InvalidTicketCount(remaining)
    else
      Ok
  }
}
