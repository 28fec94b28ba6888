/**
 * The two repository interfaces of internal/repository as abstract stores over one database.
 * The SQL behind them is not part of this model: a lookup returns the first row with the code
 * (rows are in primary-key order), a count counts the matching rows, and an insert appends.
 * Failures come from the database's fault settings, which the caller fixes in advance.
 */
module Repository {
  import opened Wrappers
  import opened Models

  /** The outcome the database gives to one insert. */
  datatype Fault = Pass | Fail(code: nat)

  /** The next queued write outcome; once the queue is used up every write succeeds. */
  function NextWrite(q: seq<Fault>): Fault
  {
    if q == [] then Pass else q[0]
  }

  /** The queue after one write has consumed its outcome. */
  function AfterWrite(q: seq<Fault>): (r: seq<Fault>)
    ensures |r| == if q == [] then 0 else |q| - 1
  {
    if q == [] then [] else q[1..]
  }

  /** The first row whose short code is `code`, as `First` returns it. */
  function FirstWithCode(rows: seq<Link>, code: string): (r: Option<Link>)
    ensures r.Some? ==> r.value in rows && r.value.shortCode == code
    ensures r.Some? ==> exists i :: 0 <= i < |rows| && rows[i] == r.value
                          && forall j :: 0 <= j < i ==> rows[j].shortCode != code
    ensures r.None? <==> forall i :: 0 <= i < |rows| ==> rows[i].shortCode != code
  {
    if rows == [] then None
    else if rows[0].shortCode == code then Some(rows[0])
    else FirstWithCode(rows[1..], code)
  }

  /** What a short-code lookup sees: the link rows and the lookup error the database is set to. */
  datatype LinkTable = LinkTable(rows: seq<Link>, lookupFault: Option<nat>)

  /** Found, not found, or the configured lookup error. */
  function Lookup(t: LinkTable, code: string): (r: Result<Link, Error>)
    ensures t.lookupFault.Some? ==> r == Failure(StoreFailure(t.lookupFault.value))
    ensures t.lookupFault.None? ==> r.Success? || r == Failure(RecordNotFound)
    ensures r.Success? ==> r.value in t.rows && r.value.shortCode == code
  {
    if t.lookupFault.Some? then Failure(StoreFailure(t.lookupFault.value))
    else match FirstWithCode(t.rows, code)
      case Some(link) => Success(link)
      case None => Failure(RecordNotFound)
  }

  /** A working lookup misses exactly when no row carries the code, and a hit is the first such row. */
  lemma LookupMeaning(t: LinkTable, code: string)
    requires t.lookupFault.None?
    ensures Lookup(t, code) == Failure(RecordNotFound) <==> forall i :: 0 <= i < |t.rows| ==> t.rows[i].shortCode != code
    ensures Lookup(t, code).Success? ==>
              exists i :: 0 <= i < |t.rows| && t.rows[i] == Lookup(t, code).value
                          && forall j :: 0 <= j < i ==> t.rows[j].shortCode != code
  {
    var _ := FirstWithCode(t.rows, code);
  }

  /** A result with the lookup's four properties is the lookup's result. */
  lemma LookupDetermined(t: LinkTable, code: string, r: Result<Link, Error>)
    requires t.lookupFault.Some? ==> r == Failure(StoreFailure(t.lookupFault.value))
    requires t.lookupFault.None? ==> r.Success? || r == Failure(RecordNotFound)
    requires t.lookupFault.None? ==>
               (r == Failure(RecordNotFound) <==> forall i :: 0 <= i < |t.rows| ==> t.rows[i].shortCode != code)
    requires r.Success? ==> Some(r.value) == FirstWithCode(t.rows, code)
    ensures r == Lookup(t, code)
  {
  }

  /** The number of clicks recorded for `linkId` (`WHERE link_id = ?` then `Count`). */
  function CountFor(clicks: seq<Click>, linkId: nat): (n: nat)
    ensures n <= |clicks|
    ensures n == 0 <==> forall i :: 0 <= i < |clicks| ==> clicks[i].linkId != linkId
  {
    if clicks == [] then 0
    else (if clicks[0].linkId == linkId then 1 else 0) + CountFor(clicks[1..], linkId)
  }

  /** Counting distributes over appending rows. */
  lemma {:induction false} CountForAppend(a: seq<Click>, b: seq<Click>, linkId: nat)
    ensures CountFor(a + b, linkId) == CountFor(a, linkId) + CountFor(b, linkId)
  {
    if a != [] {
      assert (a + b)[1..] == a[1..] + b;
      CountForAppend(a[1..], b, linkId);
    } else {
      assert a + b == b;
    }
  }

  /** The single SQLite database both repositories share. */
  class Database {
    var links: seq<Link>
    var clicks: seq<Click>
    /** While set, every short-code lookup fails with this store error. */
    var lookupFault: Option<nat>
    /** While set, every click count fails with this store error. */
    var countFault: Option<nat>
    /** The outcomes of the next inserts, links and clicks alike, in call order. */
    var writeFaults: seq<Fault>
    /** Every click ever handed to CreateClick, in call order (a trace, not a table). */
    ghost var clickCalls: seq<Click>

    constructor (lookupFault: Option<nat>, countFault: Option<nat>, writeFaults: seq<Fault>)
      ensures this.links == [] && this.clicks == [] && this.clickCalls == []
      ensures this.lookupFault == lookupFault && this.countFault == countFault
      ensures this.writeFaults == writeFaults
    {
      this.links, this.clicks, this.clickCalls := [], [], [];
      this.lookupFault, this.countFault, this.writeFaults := lookupFault, countFault, writeFaults;
    }

    function LinkView(): LinkTable
      reads this
    {
      LinkTable(links, lookupFault)
    }

    /** Row count per link, or the configured count error. */
    function CountClicks(linkId: nat): (r: Result<nat, Error>)
      reads this
      ensures countFault.Some? ==> r == Failure(StoreFailure(countFault.value))
      ensures countFault.None? ==> r == Success(CountFor(clicks, linkId))
    {
      match countFault
      case Some(code) => Failure(StoreFailure(code))
      case None => Success(CountFor(clicks, linkId))
    }
  }

  /** The LinkRepository interface (link_repository.go, lines 48-53). */
  class LinkRepository {
    const db: Database

    constructor (db: Database)
      ensures this.db == db
    {
      this.db := db;
    }

    /** Inserts a link; the database assigns the next primary key. */
    method CreateLink(link: Link) returns (stored: Link, err: Option<Error>)
      modifies db
      ensures db.writeFaults == AfterWrite(old(db.writeFaults))
      ensures NextWrite(old(db.writeFaults)).Fail? ==>
                err == Some(StoreFailure(NextWrite(old(db.writeFaults)).code)) && db.links == old(db.links)
      ensures NextWrite(old(db.writeFaults)).Pass? ==>
                err == None && stored == link.(id := |old(db.links)| + 1) && db.links == old(db.links) + [stored]
      ensures db.clicks == old(db.clicks) && db.clickCalls == old(db.clickCalls)
      ensures db.lookupFault == old(db.lookupFault) && db.countFault == old(db.countFault)
    {
      var outcome := NextWrite(db.writeFaults);
      db.writeFaults := AfterWrite(db.writeFaults);
      stored := link;
      if outcome.Fail? {
        err := Some(StoreFailure(outcome.code));
      } else {
        stored := link.(id := |db.links| + 1);
        db.links := db.links + [stored];
        err := None;
      }
    }

    /** `WHERE shortcode = ?` then `First`: the store error, not-found, or the first row with the code. */
    function GetLinkByShortCode(code: string): (r: Result<Link, Error>)
      reads db
      ensures db.lookupFault.Some? ==> r == Failure(StoreFailure(db.lookupFault.value))
      ensures db.lookupFault.None? ==> r.Success? || r == Failure(RecordNotFound)
      ensures db.lookupFault.None? ==>
                (r == Failure(RecordNotFound) <==> forall i :: 0 <= i < |db.links| ==> db.links[i].shortCode != code)
      ensures r.Success? ==> Some(r.value) == FirstWithCode(db.links, code)
    {
      Lookup(db.LinkView(), code)
    }

    /** The number of click rows carrying the key, or the store error. */
    function CountClicksByLinkID(linkId: nat): (r: Result<nat, Error>)
      reads db
      ensures db.countFault.Some? ==> r == Failure(StoreFailure(db.countFault.value))
      ensures db.countFault.None? ==> r.Success? && r.value == CountFor(db.clicks, linkId)
    {
      db.CountClicks(linkId)
    }
  }

  /** The ClickRepository interface (click_repository.go, lines 13-16). */
  class ClickRepository {
    const db: Database

    constructor (db: Database)
      ensures this.db == db
    {
      this.db := db;
    }

    /** Inserts a click, consuming one queued write outcome; the call is traced. */
    method CreateClick(click: Click) returns (err: Option<Error>)
      modifies db
      ensures db.writeFaults == AfterWrite(old(db.writeFaults))
      ensures db.clickCalls == old(db.clickCalls) + [click]
      ensures err.None? <==> NextWrite(old(db.writeFaults)).Pass?
      ensures err.Some? ==> err == Some(StoreFailure(NextWrite(old(db.writeFaults)).code))
      ensures db.clicks == if err.None? then old(db.clicks) + [click] else old(db.clicks)
      ensures db.links == old(db.links)
      ensures db.lookupFault == old(db.lookupFault) && db.countFault == old(db.countFault)
    {
      var outcome := NextWrite(db.writeFaults);
      db.writeFaults := AfterWrite(db.writeFaults);
      db.clickCalls := db.clickCalls + [click];
      if outcome.Fail? {
        err := Some(StoreFailure(outcome.code));
      } else {
        db.clicks := db.clicks + [click];
        err := None;
      }
    }

    /** The number of click rows carrying the key, or the store error. */
    function CountClicksByLinkID(linkId: nat): (r: Result<nat, Error>)
      reads db
      ensures db.countFault.Some? ==> r == Failure(StoreFailure(db.countFault.value))
      ensures db.countFault.None? ==> r.Success? && r.value == CountFor(db.clicks, linkId)
    {
      db.CountClicks(linkId)
    }
  }
}
