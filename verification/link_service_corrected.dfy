/**
 * CreateLink as evidently intended: the loop leaves with the first free candidate and no error,
 * and the link stores exactly the code that was checked for uniqueness. The short-code generator
 * and the repository are those of LinkServices and Repository.
 */
module LinkServicesCorrected {
  import opened Wrappers
  import opened Models
  import opened Repository
  import opened LinkServices

  /** The outcome of the retry loop when a not-found lookup ends it successfully. */
  function IntendedSearch(t: LinkTable, rng: Entropy, pos: nat): (r: Result<string, Error>)
    ensures r.Success? ==> |r.value| == CodeLength && t.lookupFault.None?
    ensures r.Failure? ==> || r.error == UniqueCodeExhausted
                           || r.error == GenerationFailed(EntropyFailure)
                           || (t.lookupFault.Some? && r.error == UniquenessCheckFailed(StoreFailure(t.lookupFault.value)))
  {
    var k := FirstFreeRound(t, rng, pos, 0);
    if k == MaxRetries then Failure(UniqueCodeExhausted)
    else if !DrawsOk(rng, RoundStart(pos, k), CodeLength) then Failure(GenerationFailed(EntropyFailure))
    else
      var found := Lookup(t, Candidate(rng, pos, k));
      if found == Failure(RecordNotFound) then Success(Candidate(rng, pos, k))
      else Failure(UniquenessCheckFailed(found.error))
  }

  /** No two links share a short code. */
  predicate UniqueCodes(rows: seq<Link>)
  {
    forall i, j :: 0 <= i < j < |rows| ==> rows[i].shortCode != rows[j].shortCode
  }

  /** A code the intended loop hands out is six alphanumeric symbols that no stored link carries. */
  lemma IntendedCodeIsFree(t: LinkTable, rng: Entropy, pos: nat)
    requires IntendedSearch(t, rng, pos).Success?
    ensures var code := IntendedSearch(t, rng, pos).value;
            && t.lookupFault.None?
            && |code| == CodeLength
            && (forall c :: c in code ==> IsAlphanumeric(c))
            && (forall i :: 0 <= i < |t.rows| ==> t.rows[i].shortCode != code)
  {
    var k := FirstFreeRound(t, rng, pos, 0);
    SpelledCodeIsAlphanumeric(rng, RoundStart(pos, k), CodeLength);
    LookupMeaning(t, Candidate(rng, pos, k));
  }

  /** The intended loop gives up exactly when all five rounds collide. */
  lemma IntendedExhaustion(t: LinkTable, rng: Entropy, pos: nat)
    ensures IntendedSearch(t, rng, pos) == Failure(UniqueCodeExhausted)
            <==> forall i :: 0 <= i < MaxRetries ==> Collides(t, rng, pos, i)
  {
    var k := FirstFreeRound(t, rng, pos, 0);
    if k < MaxRetries {
      assert !Collides(t, rng, pos, k);
    }
  }

  /** Against the same store and draws, the as-written CreateLink gives up exactly when the
    * intended one finds a free code, and proceeds to an insert exactly when the intended one
    * gives up; every other outcome is the same error. */
  lemma OutcomesSwapped(t: LinkTable, rng: Entropy, pos: nat, longUrl: string, now: int)
    ensures PostLoop(SearchResult(t, rng, pos), longUrl, now) == Failure(UniqueCodeExhausted)
            <==> IntendedSearch(t, rng, pos).Success?
    ensures PostLoop(SearchResult(t, rng, pos), longUrl, now).Success?
            <==> IntendedSearch(t, rng, pos) == Failure(UniqueCodeExhausted)
    ensures var asWritten := PostLoop(SearchResult(t, rng, pos), longUrl, now);
            var intended := IntendedSearch(t, rng, pos);
            intended.Failure? && intended.error != UniqueCodeExhausted ==> asWritten == Failure(intended.error)
  {
    ExhaustionMeansFreeCode(t, rng, pos, longUrl, now);
    var k := FirstFreeRound(t, rng, pos, 0);
    if k == MaxRetries {
      assert Collides(t, rng, pos, MaxRetries - 1);
    }
  }

  /** Appending a link whose code no stored link carries keeps the codes unique. */
  lemma AppendFreshKeepsUnique(rows: seq<Link>, link: Link)
    requires UniqueCodes(rows)
    requires forall i :: 0 <= i < |rows| ==> rows[i].shortCode != link.shortCode
    ensures UniqueCodes(rows + [link])
  {
    var rows' := rows + [link];
    forall i, j | 0 <= i < j < |rows'| ensures rows'[i].shortCode != rows'[j].shortCode {
      if j < |rows| {
        assert rows'[i] == rows[i] && rows'[j] == rows[j];
      } else {
        assert rows'[i] == rows[i] && rows'[j] == link;
      }
    }
  }

  /** The retry loop with the not-found case leaving it successfully. */
  method SearchFreeCode(svc: LinkService, rng: Entropy, pos: nat) returns (r: Result<string, Error>)
    ensures r == IntendedSearch(svc.linkRepo.db.LinkView(), rng, pos)
  {
    ghost var t := svc.linkRepo.db.LinkView();
    for i := 0 to MaxRetries
      invariant forall j :: 0 <= j < i ==> Collides(t, rng, pos, j)
    {
      var shortCode, err := svc.GenerateShortCode(CodeLength, rng, RoundStart(pos, i));
      if err.Some? {
        FirstFreeRoundIs(t, rng, pos, i);
        return Failure(GenerationFailed(err.value));
      }
      var found := svc.linkRepo.GetLinkByShortCode(shortCode);
      LookupDetermined(t, shortCode, found);
      if found.Failure? {
        FirstFreeRoundIs(t, rng, pos, i);
        if found.error == RecordNotFound {
          return Success(shortCode);
        }
        return Failure(UniquenessCheckFailed(found.error));
      }
    }
    FirstFreeRoundIs(t, rng, pos, MaxRetries);
    r := Failure(UniqueCodeExhausted);
  }

  /** CreateLink with both corrections: it inserts the first free code, as generated, and so keeps
    * unique the codes of a store whose codes were unique. */
  method CreateLinkIntended(svc: LinkService, longUrl: string, rng: Entropy, pos: nat, now: int)
    returns (r: Result<Link, Error>)
    modifies svc.linkRepo.db
    ensures old(UniqueCodes(svc.linkRepo.db.links)) ==> UniqueCodes(svc.linkRepo.db.links)
    ensures var planned := old(IntendedSearch(svc.linkRepo.db.LinkView(), rng, pos));
            planned.Failure? ==> r == Failure(planned.error) && unchanged(svc.linkRepo.db)
    ensures var planned := old(IntendedSearch(svc.linkRepo.db.LinkView(), rng, pos));
            var outcome := NextWrite(old(svc.linkRepo.db.writeFaults));
            planned.Success? ==>
              && svc.linkRepo.db.writeFaults == AfterWrite(old(svc.linkRepo.db.writeFaults))
              && svc.linkRepo.db.clicks == old(svc.linkRepo.db.clicks)
              && svc.linkRepo.db.clickCalls == old(svc.linkRepo.db.clickCalls)
              && svc.linkRepo.db.lookupFault == old(svc.linkRepo.db.lookupFault)
              && svc.linkRepo.db.countFault == old(svc.linkRepo.db.countFault)
              && (outcome.Fail? ==> r == Failure(CreateFailed(StoreFailure(outcome.code)))
                                    && svc.linkRepo.db.links == old(svc.linkRepo.db.links))
              && (outcome.Pass? ==> r == Success(Link(|old(svc.linkRepo.db.links)| + 1, longUrl, planned.value, now))
                                    && svc.linkRepo.db.links == old(svc.linkRepo.db.links) + [r.value])
  {
    ghost var t := svc.linkRepo.db.LinkView();
    ghost var faults0 := svc.linkRepo.db.writeFaults;
    var code := SearchFreeCode(svc, rng, pos);
    if code.Failure? {
      return Failure(code.error);
    }
    IntendedCodeIsFree(t, rng, pos);
    var stored, err := svc.linkRepo.CreateLink(Link(0, longUrl, code.value, now));
    if err.Some? {
      return Failure(CreateFailed(err.value));
    }
    assert NextWrite(faults0).Pass?;
    if UniqueCodes(t.rows) {
      AppendFreshKeepsUnique(t.rows, stored);
    }
    r := Success(stored);
  }
}
