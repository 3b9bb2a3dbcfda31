/** The console session of the booking application: the loop of main that
    validates each request, books the valid ones and stops once every ticket
    is sold. Console reads are replaced by a given sequence of requests. */
module Session {
  import opened Validation
  import opened Bookings

  /** What one prompt cycle collects from the console (getUserInput). */
  datatype Request = Request(firstName: string, lastName: string, email: string, userTickets: nat)

  /** Where a session ends: the ledger state, how many requests it read, and
      whether it stopped because the tickets sold out. */
  datatype Outcome = Outcome(remaining: nat, bookings: seq<UserData>, consumed: nat, soldOut: bool)

  /** The record that booking a request appends. */
  function RecordOf(q: Request): UserData
  {
    UserData(q.firstName, q.lastName, q.email, q.userTickets)
  }

  /** Whether the validator accepts a request against the current counter. */
  predicate Accepted(q: Request, remaining: nat)
  {
    Validate(q.firstName, q.lastName, q.email, q.userTickets, remaining) == Ok
  }

  /** The session run on the ledger state (`remaining`, `bookings`) over the
      requests `inputs`, one loop iteration per request: a rejected request
      leaves the ledger as it is; an accepted one is booked, and the loop ends
      when that booking leaves no ticket. When the requests run out first, the
      session ends there without selling out. */
  function Run(remaining: nat, bookings: seq<UserData>, inputs: seq<Request>): Outcome
    decreases |inputs|
  {
    if inputs == [] then
      Outcome(remaining, bookings, 0, false)
    else
      var q := inputs[0];
      if !Accepted(q, remaining) then
        var r := Run(remaining, bookings, inputs[1..]);
        r.(consumed := r.consumed + 1)
      else if remaining - q.userTickets == 0 then
        Outcome(0, bookings + [RecordOf(q)], 1, true)
      else
        var r := Run(remaining - q.userTickets, bookings + [RecordOf(q)], inputs[1..]);
        r.(consumed := r.consumed + 1)
  }

  /** A rejected request is skipped: the rest of the session proceeds from the
      same counter and the same bookings. This spells out one unfolding of
      `Run`, which Dafny takes unaided. */
  lemma RejectedChangesNothing(remaining: nat, bookings: seq<UserData>, q: Request, rest: seq<Request>)
    requires !Accepted(q, remaining)
    ensures var r := Run(remaining, bookings, rest);
            Run(remaining, bookings, [q] + rest) == r.(consumed := r.consumed + 1)
  {
  }

  /** An accepted request takes at least one ticket, so the counter strictly
      decreases; booking exactly what is left ends the session at once. This
      spells out one unfolding of `Run`, which Dafny takes unaided. */
  lemma AcceptedBooks(remaining: nat, bookings: seq<UserData>, q: Request, rest: seq<Request>)
    requires Accepted(q, remaining)
    ensures remaining - q.userTickets < remaining
    ensures q.userTickets == remaining ==>
              Run(remaining, bookings, [q] + rest) == Outcome(0, bookings + [RecordOf(q)], 1, true)
    ensures q.userTickets < remaining ==>
              var r := Run(remaining - q.userTickets, bookings + [RecordOf(q)], rest);
              Run(remaining, bookings, [q] + rest) == r.(consumed := r.consumed + 1)
  {
  }

  /** The ledger invariant: a session moves tickets from the counter to the
      bookings and never loses or creates one. */
  lemma {:induction false} RunKeepsTotal(remaining: nat, bookings: seq<UserData>, inputs: seq<Request>)
    ensures var r := Run(remaining, bookings, inputs);
            r.remaining + TotalTickets(r.bookings) == remaining + TotalTickets(bookings)
    decreases |inputs|
  {
    if inputs != [] {
      var q := inputs[0];
      if !Accepted(q, remaining) {
        RunKeepsTotal(remaining, bookings, inputs[1..]);
      } else if remaining - q.userTickets != 0 {
        RunKeepsTotal(remaining - q.userTickets, bookings + [RecordOf(q)], inputs[1..]);
      }
    }
  }

  /** How a session ends: it reads at most the given requests; it sells out
      exactly when the counter was positive and ends at zero; a session that
      does not sell out has read every request; earlier bookings are kept in
      order, each new booking holds at least one ticket, and there are at most
      as many new bookings as tickets taken. */
  lemma {:induction false} RunEnds(remaining: nat, bookings: seq<UserData>, inputs: seq<Request>)
    ensures var r := Run(remaining, bookings, inputs);
            && r.consumed <= |inputs|
            && (r.soldOut <==> remaining > 0 && r.remaining == 0)
            && (r.soldOut ==> 1 <= r.consumed)
            && (!r.soldOut ==> r.consumed == |inputs|)
            && r.remaining <= remaining
            && |bookings| <= |r.bookings|
            && r.bookings[..|bookings|] == bookings
            && (forall i :: |bookings| <= i < |r.bookings| ==> r.bookings[i].numberOfTickets >= 1)
            && |r.bookings| - |bookings| <= remaining - r.remaining
    decreases |inputs|
  {
    if inputs != [] {
      var q := inputs[0];
      if !Accepted(q, remaining) {
        RunEnds(remaining, bookings, inputs[1..]);
      } else if remaining - q.userTickets != 0 {
        var bs := bookings + [RecordOf(q)];
        RunEnds(remaining - q.userTickets, bs, inputs[1..]);
        var r := Run(remaining - q.userTickets, bs, inputs[1..]);
        assert r.bookings[..|bookings|] == r.bookings[..|bs|][..|bookings|];
      }
    }
  }

  /** The loop of main over the requests `inputs`, acting on `ledger`. It
      returns how many requests it read and whether it stopped because the
      tickets sold out. */
  method BookingLoop(ledger: Ledger, inputs: seq<Request>) returns (consumed: nat, soldOut: bool)
    modifies ledger
    ensures Outcome(ledger.remaining, ledger.bookings, consumed, soldOut)
            == Run(old(ledger.remaining), old(ledger.bookings), inputs)
    ensures old(ledger.Valid()) ==> ledger.Valid()
  {
    ghost var result := Run(ledger.remaining, ledger.bookings, inputs);
    RunKeepsTotal(ledger.remaining, ledger.bookings, inputs);
    consumed, soldOut := 0, false;
    while consumed < |inputs| && !soldOut
      invariant consumed <= |inputs|
      invariant !soldOut ==>
                  var r := Run(ledger.remaining, ledger.bookings, inputs[consumed..]);
                  result == r.(consumed := r.consumed + consumed)
      invariant soldOut ==> result == Outcome(ledger.remaining, ledger.bookings, consumed, true)
      decreases |inputs| - consumed
    {
      var q := inputs[consumed];
      assert inputs[consumed..] == [q] + inputs[consumed + 1..];
      var verdict := Validate(q.firstName, q.lastName, q.email, q.userTickets, ledger.remaining);
      if verdict != Ok {
        consumed := consumed + 1;
        continue;
      }
      ledger.BookTickets(q.userTickets, q.firstName, q.lastName, q.email);
      consumed := consumed + 1;
      var firstNames := ledger.FirstNames();
      if ledger.remaining == 0 {
        soldOut := true;
      }
    }
    assert !soldOut ==> inputs[consumed..] == [];
  }

  /** The whole program: a fresh ledger with every ticket available, then the
      booking loop over the requests. */
  method BookingApplication(inputs: seq<Request>) returns (ledger: Ledger, consumed: nat, soldOut: bool)
    ensures fresh(ledger) && ledger.Valid()
    ensures Outcome(ledger.remaining, ledger.bookings, consumed, soldOut)
            == Run(CONFERENCE_TICKETS, [], inputs)
    ensures soldOut <==> ledger.remaining == 0
  {
    ledger := new Ledger();
    consumed, soldOut := BookingLoop(ledger, inputs);
    RunEnds(CONFERENCE_TICKETS, [], inputs);
  }
}

/** The worked scenarios of the booking application, on the session model. */
module Scenarios {
  import opened Validation
  import opened Bookings
  import opened Session

  /** John Smith books two of the fifty tickets: 48 remain and the first-name
      list is ["John"]; a one-letter first name is refused with a name error;
      a request for 51 of 50 tickets is refused with bound 50. */
  lemma SingleRequests()
    ensures Run(50, [], [Request("John", "Smith", "j@x.com", 2)])
            == Outcome(48, [UserData("John", "Smith", "j@x.com", 2)], 1, false)
    ensures FirstNamesOf([UserData("John", "Smith", "j@x.com", 2)]) == ["John"]
    ensures Validate("A", "Smith", "a@x.com", 1, 50) == InvalidName
    ensures Validate("John", "Smith", "j@x.com", 51, 50) == InvalidTicketCount(50)
  {
  }

  /** Booking exactly the remaining count sells out and ends the session, and
      requests after it are never read. */
  lemma SellOutEndsSession(later: seq<Request>)
    ensures Run(3, [], [Request("Ann", "Lee", "a@b", 3)] + later)
            == Outcome(0, [UserData("Ann", "Lee", "a@b", 3)], 1, true)
  {
  }
}
