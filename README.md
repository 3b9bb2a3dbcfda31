# Conference ticket booking, modelled in Dafny

A model of a small command-line Go program that sells the 50 tickets of a
conference. Each prompt cycle reads a first name, a last name, an email and a
ticket count. The validator checks them. If they are valid, the ledger subtracts
the tickets from the remaining-ticket counter and appends a booking record. The
loop stops once the counter reaches zero.

Files, one module per component of `main.go`:

- `strings.dfy` (`GoStrings`): Go's `strings.Contains`, the one library call whose result decides the verdict. It is proved equal to "some position starts a copy", and, for a one-character needle, to plain membership.
- `validation.dfy` (`Validation`): `validateUserInput` as the pure function `Validate`, returning a tagged `Verdict`.
- `ledger.dfy` (`Bookings`): the `UserData` record, the constant 50, and the class `Ledger`. The class holds the global counter and the bookings slice, with `BookTickets` and `FirstNames` (printFirstNames).
- `session.dfy` (`Session`, `Scenarios`): the loop of `main`. It is specified by the function `Run` over a sequence of requests, which stand in for the console reads. The method `BookingLoop` is proved equal to `Run`, and lemmas about `Run` give the ledger invariant and the termination facts. `Scenarios` holds a few worked examples.

Modelling choices:

- `remainingTickets` and the ticket counts are Go `uint`. They are `nat` here. `BookTickets` checks nothing, as in the source. Its precondition `userTickets <= remaining` is exactly what keeps the unsigned subtraction from wrapping. The loop only calls it after the validator has accepted the request.
- `validateUserInput` reads the global `remainingTickets`. `Validate` takes it as a parameter.
- Go's `len` on a string counts bytes. Strings here are sequences of characters, and `|s|` counts characters.
- The Go loop never ends on its own when the input runs dry. The model's loop reads a finite sequence, and stops after the last request when the tickets have not sold out.

## Model

| member | source | states |
|---|---|---|
| GoStrings.ContainsAt | main.go:137 | `Contains(s, sub)` holds exactly when some position of `s` starts a copy of `sub` |
| GoStrings.ContainsChar | main.go:137 | `Contains(email, "@")` holds exactly when the character '@' occurs in `email` |
| Validation.Validate | main.go:131-147 | the verdict is `Ok` iff both names have at least 2 characters, the email holds '@', and 1 <= request <= remaining. `InvalidName` iff a name is too short. `InvalidEmail` iff the names pass and there is no '@'. `InvalidTicketCount` iff names and email pass and the request is 0 or above the remaining count, and its bound is then the remaining count |
| Bookings.TotalTicketsAppend | main.go:114 | appending a booking adds exactly its ticket count to the total booked |
| Bookings.FirstNamesOfAt | main.go:72-75 | the first-name list has one entry per booking, and entry i is booking i's first name |
| Bookings.Ledger.constructor | main.go:13-15 | a new ledger has all 50 tickets remaining and no bookings, so the invariant remaining + booked == 50 holds |
| Bookings.Ledger.BookTickets | main.go:101-114 | for a request of at most the remaining count, the counter drops by exactly the request. Exactly one record with the given names, email and count is appended, and earlier bookings are kept in order. The invariant remaining + booked == 50 is preserved |
| Bookings.Ledger.FirstNames | main.go:68-77 | returns the first names of the bookings in booking order and modifies nothing, so two calls with no booking between them agree |
| Session.RejectedChangesNothing | main.go:40-44 | a request the validator rejects leaves the counter and the bookings as they were for the rest of the session |
| Session.AcceptedBooks | main.go:47-57 | an accepted request strictly lowers the counter. Requesting exactly the remaining count books it and ends the session after that request |
| Session.RunKeepsTotal | main.go:13-15 | over a whole session, remaining + total booked tickets is unchanged, so the 50-ticket invariant holds throughout |
| Session.RunEnds | main.go:35-58 | the session reads at most the given requests. It sells out exactly when the counter was positive and ends at zero, and otherwise it reads every request. Earlier bookings are kept. Every new booking holds at least one ticket, and there are no more new bookings than tickets taken |
| Session.BookingLoop | main.go:35-58 | the imperative loop ends in exactly the state, request count and sold-out flag that `Run` gives, and it preserves the ledger invariant |
| Session.BookingApplication | main.go:13-58 | the program starts from 50 free tickets. Its final state is `Run` from that start, it satisfies the invariant, and it reports sold out exactly when no ticket remains |
| Scenarios.SingleRequests | main.go:131-147 | John Smith booking 2 of 50 leaves 48 and the first-name list ["John"]. The first name "A" is refused with a name error. Requesting 51 of 50 is refused with bound 50 |
| Scenarios.SellOutEndsSession | main.go:54-57 | booking all 3 remaining tickets sells out and stops, and later requests are not read |

## Left out

- getUserInput (console reads with `fmt.Scanln`): replaced by the sequence of requests given to the loop. A non-numeric ticket count is a concern of the console reader.
- sendTickets and its goroutine launch: a detached task that sleeps 10 seconds and prints. It has no effect on the ledger. Timing and concurrency are not modelled.
- greetUser, the printed confirmations, the printed first-name list and the logged error texts: output only. The verdict keeps the error kind and the ticket bound, not the message strings.
- bookingMutex: the model is sequential, so each ledger operation is atomic.
- Bookings.Ledger.BookTickets: does not model Go `uint` wrap-around of `remainingTickets -= userTickets` for a request above the counter. The precondition excludes it, and the validator guarantees it in the only caller.
- Validation.Validate: counts characters, not UTF-8 bytes as Go's `len` does, so names with multi-byte characters may be judged differently.
