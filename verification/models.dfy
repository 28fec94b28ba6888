/** The records of internal/models: clicks, click events and links, plus the errors the core reports. */
module Models {

  /** A persisted click. `id` is the database primary key; Go's `uint` fields are naturals here. */
  datatype Click = Click(id: nat, linkId: nat, timestamp: int, userAgent: string, ip: string)

  /** The message a request handler queues for the click workers: a click without its key. */
  datatype ClickEvent = ClickEvent(linkId: nat, timestamp: int, userAgent: string, ip: string)

  /** A shortened link. `createdAt` is Unix seconds. */
  datatype Link = Link(id: nat, longUrl: string, shortCode: string, createdAt: int)

  /** Every error the core can return, with the wrapping the Go code applies by `%w`. */
  datatype Error =
    | RecordNotFound                        // gorm.ErrRecordNotFound
    | StoreFailure(code: nat)               // any other database error
    | EntropyFailure                        // crypto/rand could not be read
    | GenerationFailed(cause: Error)        // "error generating short code"
    | UniquenessCheckFailed(cause: Error)   // "database error checking short code uniqueness"
    | UniqueCodeExhausted                   // "failed to generate a unique short code after maximum retries"
    | CreateFailed(cause: Error)            // "error creating link in database"
    | RetrieveFailed(cause: Error)          // "error retrieving link"
    | CountFailed(cause: Error)             // "error counting clicks"
    | ServiceNotInitialised                 // ClickService or its repository is nil
    | NilClick                              // RecordClick was given a nil click
    | InvalidLinkId(id: nat)                // a zero LinkID
    | RecordClickFailed(linkId: nat, cause: Error)
    | ClickCountFailed(linkId: nat, cause: Error)

  /** Reading a persisted click back as the event it records. */
  function EventOf(c: Click): ClickEvent
  {
    ClickEvent(c.linkId, c.timestamp, c.userAgent, c.ip)
  }

  /** The worker's conversion of an event into a click record (click_workers.go, lines 36-41). */
  function ToClick(e: ClickEvent): (c: Click)
    ensures EventOf(c) == e
    ensures c.id == 0
  {
    Click(0, e.linkId, e.timestamp, e.userAgent, e.ip)
  }

  /** Conversion loses only the key: a keyless click survives a trip through its event. */
  lemma ToClickInvertsEventOf(c: Click)
    requires c.id == 0
    ensures ToClick(EventOf(c)) == c
  {
  }

  /** The conversion applied to every event of a sequence, in order. */
  function ToClicks(es: seq<ClickEvent>): (cs: seq<Click>)
    ensures |cs| == |es|
    ensures forall i :: 0 <= i < |es| ==> cs[i] == ToClick(es[i])
  {
    if es == [] then [] else [ToClick(es[0])] + ToClicks(es[1..])
  }
}
