/**
 * internal/services/click_service.go: two guard chains in front of one ClickRepository call each.
 * A nil *ClickService, or a service whose repository is nil, is `null`; a nil *Click is `None`.
 */
module ClickServices {
  import opened Wrappers
  import opened Models
  import opened Repository

  /** The ClickService struct: a holder for a possibly missing click repository. */
  class ClickService {
    const clickRepo: ClickRepository?

    /** NewClickService (lines 18-22). */
    constructor (clickRepo: ClickRepository?)
      ensures this.clickRepo == clickRepo
    {
      this.clickRepo := clickRepo;
    }
  }

  /** The service and its repository are both present. */
  predicate Initialised(s: ClickService?)
  {
    s != null && s.clickRepo != null
  }

  /** The database a working service writes to; nothing for a broken one. */
  function Store(s: ClickService?): set<Database>
  {
    if Initialised(s) then {s.clickRepo.db} else {}
  }

  /** The error the guards of RecordClick report, if any, before the repository is called. */
  function RecordGuard(s: ClickService?, click: Option<Click>): (r: Option<Error>)
    ensures r.None? <==> Initialised(s) && click.Some? && click.value.linkId != 0
    ensures !Initialised(s) ==> r == Some(ServiceNotInitialised)
    ensures Initialised(s) && click.None? ==> r == Some(NilClick)
    ensures Initialised(s) && click.Some? && click.value.linkId == 0 ==> r == Some(InvalidLinkId(0))
  {
    if !Initialised(s) then Some(ServiceNotInitialised)
    else if click.None? then Some(NilClick)
    else if click.value.linkId == 0 then Some(InvalidLinkId(click.value.linkId))
    else None
  }

  /** Lines 26-47: the guards in order, then exactly one CreateClick call whose error is wrapped
    * with the click's link key. A rejected click leaves the store untouched. */
  method RecordClick(s: ClickService?, click: Option<Click>) returns (err: Option<Error>)
    modifies Store(s)
    ensures RecordGuard(s, click).Some? ==> err == RecordGuard(s, click)
    ensures RecordGuard(s, click).Some? && Initialised(s) ==> unchanged(s.clickRepo.db)
    ensures RecordGuard(s, click).None? ==>
              var db := s.clickRepo.db;
              var outcome := NextWrite(old(db.writeFaults));
              && db.clickCalls == old(db.clickCalls) + [click.value]
              && db.writeFaults == AfterWrite(old(db.writeFaults))
              && (outcome.Pass? ==> err == None && db.clicks == old(db.clicks) + [click.value])
              && (outcome.Fail? ==> err == Some(RecordClickFailed(click.value.linkId, StoreFailure(outcome.code)))
                                    && db.clicks == old(db.clicks))
              && db.links == old(db.links)
              && db.lookupFault == old(db.lookupFault) && db.countFault == old(db.countFault)
  {
    err := RecordGuard(s, click);
    if err.Some? {
      return;
    }
    var stored := s.clickRepo.CreateClick(click.value);
    if stored.Some? {
      return Some(RecordClickFailed(click.value.linkId, stored.value));
    }
  }

  /** Lines 51-68: the guards, then the repository's count passed through or its error wrapped
    * with the link key. */
  function GetClicksCountByLinkID(s: ClickService?, linkId: nat): (r: Result<nat, Error>)
    reads Store(s)
    ensures !Initialised(s) ==> r == Failure(ServiceNotInitialised)
    ensures Initialised(s) && linkId == 0 ==> r == Failure(InvalidLinkId(0))
    ensures Initialised(s) && linkId != 0 && s.clickRepo.db.countFault.Some? ==>
              r == Failure(ClickCountFailed(linkId, StoreFailure(s.clickRepo.db.countFault.value)))
    ensures r.Success? <==> Initialised(s) && linkId != 0 && s.clickRepo.db.countFault.None?
    ensures r.Success? ==> r.value == CountFor(s.clickRepo.db.clicks, linkId)
  {
    if !Initialised(s) then Failure(ServiceNotInitialised)
    else if linkId == 0 then Failure(InvalidLinkId(linkId))
    else match s.clickRepo.CountClicksByLinkID(linkId)
      case Failure(e) => Failure(ClickCountFailed(linkId, e))
      case Success(n) => Success(n)
  }

  /** A recorded click is counted: after a successful RecordClick the count for its link is one
    * more than before, and other links' counts are unchanged. */
  lemma RecordedClickIsCounted(clicks: seq<Click>, click: Click, linkId: nat)
    ensures CountFor(clicks + [click], linkId) == CountFor(clicks, linkId) + (if click.linkId == linkId then 1 else 0)
  {
    CountForAppend(clicks, [click], linkId);
    assert [click][1..] == [];
  }
}
