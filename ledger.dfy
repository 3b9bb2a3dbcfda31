/** The ticket ledger: the remaining-ticket counter and the list of bookings. */
module Bookings {

  /** The size of the conference; the counter starts here. */
  const CONFERENCE_TICKETS: nat := 50

  /** One accepted booking (UserData). */
  datatype UserData = UserData(firstName: string, lastName: string, email: string, numberOfTickets: nat)

  /** The number of tickets held by a list of bookings. */
  function TotalTickets(bookings: seq<UserData>): nat
  {
    if bookings == [] then 0
    else TotalTickets(bookings[..|bookings| - 1]) + bookings[|bookings| - 1].numberOfTickets
  }

  /** Appending a booking adds its tickets to the total. This spells out the
      defining clause of `TotalTickets`; Dafny unfolds it unaided. */
  lemma TotalTicketsAppend(bookings: seq<UserData>, b: UserData)
    ensures TotalTickets(bookings + [b]) == TotalTickets(bookings) + b.numberOfTickets
  {
  }

  /** The first names of a list of bookings, in booking order. */
  function FirstNamesOf(bookings: seq<UserData>): seq<string>
  {
    if bookings == [] then []
    else FirstNamesOf(bookings[..|bookings| - 1]) + [bookings[|bookings| - 1].firstName]
  }

  /** The first-name list has one entry per booking, and entry `i` is the first
      name of booking `i`. */
  lemma {:induction false} FirstNamesOfAt(bookings: seq<UserData>)
    ensures |FirstNamesOf(bookings)| == |bookings|
    ensures forall i :: 0 <= i < |bookings| ==> FirstNamesOf(bookings)[i] == bookings[i].firstName
  {
    if bookings != [] {
      FirstNamesOfAt(bookings[..|bookings| - 1]);
    }
  }

  /** The ledger: the global counter `remainingTickets` and the `bookings` slice. */
  class Ledger {
    var remaining: nat
    var bookings: seq<UserData>

    /** No ticket is lost or created: what is left plus what is booked is the
        size of the conference. */
    predicate Valid()
      reads this
    {
      remaining + TotalTickets(bookings) == CONFERENCE_TICKETS
    }

    /** The state at program start: every ticket available, no bookings. */
    constructor ()
      ensures remaining == CONFERENCE_TICKETS && bookings == []
      ensures Valid()
    {
      remaining := CONFERENCE_TICKETS;
      bookings := [];
    }

    /** bookTickets: deducts the request from the counter and records the
        booking. It checks nothing itself; the caller must have validated the
        request, so that the unsigned counter cannot go below zero. */
    method BookTickets(userTickets: nat, firstName: string, lastName: string, email: string)
      requires userTickets <= remaining
      modifies this
      ensures remaining == old(remaining) - userTickets
      ensures bookings == old(bookings) + [UserData(firstName, lastName, email, userTickets)]
      ensures old(Valid()) ==> Valid()
    {
      remaining := remaining - userTickets;
      bookings := bookings + [UserData(firstName, lastName, email, userTickets)];
    }

    /** printFirstNames, without the printing: collects the first names of the
        bookings in booking order. It changes nothing, so two calls with no
        booking in between give the same list. */
    method FirstNames() returns (firstNames: seq<string>)
      ensures firstNames == FirstNamesOf(bookings)
    {
      firstNames := [];
      for i := 0 to |bookings|
        invariant firstNames == FirstNamesOf(bookings[..i])
      {
        assert bookings[..i + 1][..i] == bookings[..i];
        firstNames := firstNames + [bookings[i].firstName];
      }
      assert bookings[..|bookings|] == bookings;
    }
  }
}
