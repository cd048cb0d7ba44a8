/** The stored ticket record: one row of the tickets table. */
module Tickets {
  import opened Wrappers
  import Pricing

  /** One performance of a movie. Dates count days; times count seconds
      since midnight. */
  datatype Showing = Showing(movieId: nat, date: int, time: int)

  /** The payment choices the booking page offers. */
  datatype PaymentMethod = CreditCard | DebitCard | Upi

  /** A reservation as inserted: each seat column is a comma-joined seat
      list, or NULL when the class has no seats. */
  datatype TicketRow = TicketRow(
    id: string,
    showing: Showing,
    screenId: nat,
    price: Pricing.Price,
    payment: PaymentMethod,
    goldSeats: Option<string>,
    standardSeats: Option<string>,
    movieTitle: string,
    customerId: nat)
}
