/** The domain errors the repository and the service return, and their exact messages. */
module Errors {

  datatype Error =
    | FirstNameRequired
    | LastNameRequired
    | EmailRequired
    | PhoneRequired
    | NotFound
    | EmailTaken
    | CreateFailed  // the store refused an insert for a reason other than the unique index
    | UpdateFailed  // the store refused a save for a reason other than the unique index
    | GetFailed     // the store refused a lookup query
    | CountFailed   // the store refused a search query

  /**
   * The text of the Go error value; the HTTP layer tells the kinds apart by this text.
   * For the four store failures it is the fixed prefix that wraps the driver's message.
   */
  function Message(e: Error): string
  {
    match e
    case FirstNameRequired => "first name is required"
    case LastNameRequired => "last name is required"
    case EmailRequired => "email is required"
    case PhoneRequired => "phone is required"
    case NotFound => "customer not found"
    case EmailTaken => "customer with this email already exists"
    case CreateFailed => "failed to create customer"
    case UpdateFailed => "failed to update customer"
    case GetFailed => "failed to get customer"
    case CountFailed => "failed to count customers"
  }

  /** Each error kind has its own text, so comparing texts tells the kinds apart. */
  lemma MessageInjective(a: Error, b: Error)
    ensures Message(a) == Message(b) <==> a == b
  {
  }
}
