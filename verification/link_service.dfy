/**
 * internal/services/link_service.go as written: short-code generation, the link-creation retry
 * loop with its post-loop check, and the two read paths.
 *
 * `crypto/rand` is an oracle `rng` read from a cursor `pos`: the i-th call to `rand.Int` reads
 * `rng(pos + i)`. `time.Now()` is the parameter `now`. Log lines are not modelled.
 */
module LinkServices {
  import opened Wrappers
  import opened Models
  import opened Repository

  /** The 62-symbol alphabet of short codes (link_service.go, line 18). */
  const Charset: string := "abcdefghijklmnopqrstuvwxyzABCDEFGHIJKLMNOPQRSTUVWXYZ0123456789"

  const Lowercase: string := "abcdefghijklmnopqrstuvwxyz"
  const Uppercase: string := "ABCDEFGHIJKLMNOPQRSTUVWXYZ"
  const Digits: string := "0123456789"

  /** The length CreateLink asks for, and its bound on generate-and-lookup rounds. */
  const CodeLength: nat := 6
  const MaxRetries: nat := 5

  predicate IsAlphanumeric(c: char)
  {
    'a' <= c <= 'z' || 'A' <= c <= 'Z' || '0' <= c <= '9'
  }

  /** The code point at position i of the alphabet: the three runs a-z, A-Z, 0-9 in that order. */
  function SymbolCode(i: nat): int
    requires i < 62
  {
    if i < 26 then 'a' as int + i
    else if i < 52 then 'A' as int + (i - 26)
    else '0' as int + (i - 52)
  }

  lemma LowercaseRun()
    ensures |Lowercase| == 26
    ensures forall i :: 0 <= i < 26 ==> Lowercase[i] as int == 'a' as int + i
  {
  }

  lemma UppercaseRun()
    ensures |Uppercase| == 26
    ensures forall i :: 0 <= i < 26 ==> Uppercase[i] as int == 'A' as int + i
  {
  }

  lemma DigitsRun()
    ensures |Digits| == 10
    ensures forall i :: 0 <= i < 10 ==> Digits[i] as int == '0' as int + i
  {
  }

  lemma CharsetRuns()
    ensures Charset == Lowercase + Uppercase + Digits
  {
  }

  /** Position i of the alphabet holds the i-th symbol of the three runs. */
  lemma CharsetAt(i: nat)
    requires i < 62
    ensures |Charset| == 62 && Charset[i] as int == SymbolCode(i)
  {
    CharsetRuns();
    LowercaseRun();
    UppercaseRun();
    DigitsRun();
    if i < 26 {
      assert Charset[i] == Lowercase[i];
    } else if i < 52 {
      assert Charset[i] == Uppercase[i - 26];
    } else {
      assert Charset[i] == Digits[i - 52];
    }
  }

  /** The alphabet is exactly [a-zA-Z0-9]: 62 symbols, none repeated. */
  lemma CharsetIsAlphanumeric()
    ensures |Charset| == 62
    ensures forall i, j :: 0 <= i < j < |Charset| ==> Charset[i] != Charset[j]
    ensures forall c :: c in Charset <==> IsAlphanumeric(c)
  {
    CharsetAt(0);
    forall i, j | 0 <= i < j < 62 ensures Charset[i] != Charset[j] {
      CharsetAt(i);
      CharsetAt(j);
    }
    forall c | c in Charset ensures IsAlphanumeric(c) {
      var i :| 0 <= i < 62 && Charset[i] == c;
      CharsetAt(i);
    }
    forall c | IsAlphanumeric(c) ensures c in Charset {
      var i := if 'a' <= c <= 'z' then c as int - 'a' as int
               else if 'A' <= c <= 'Z' then c as int - 'A' as int + 26
               else c as int - '0' as int + 52;
      CharsetAt(i);
      assert Charset[i] == c;
    }
  }

  /** What `rand.Int(rand.Reader, 62)` can return: an index below 62, or a read error. */
  type SymbolIndex = i: nat | i < 62
  datatype Draw = Symbol(index: SymbolIndex) | ReadFailure

  /** The random source, read in order from a cursor. */
  type Entropy = nat -> Draw

  /** The n reads starting at `pos` all succeed. */
  predicate DrawsOk(rng: Entropy, pos: nat, n: nat)
  {
    n == 0 || (DrawsOk(rng, pos, n - 1) && rng(pos + n - 1).Symbol?)
  }

  /** Each of the n reads succeeds when all of them do. */
  lemma {:induction false} DrawsOkAt(rng: Entropy, pos: nat, n: nat, i: nat)
    ensures DrawsOk(rng, pos, n) && i < n ==> rng(pos + i).Symbol?
  {
    if n > 0 && i < n - 1 {
      DrawsOkAt(rng, pos, n - 1, i);
    }
  }

  /** The symbol a successful read selects; CharsetAt shows it is `charset[index]`. */
  function SymbolOf(index: SymbolIndex): char
  {
    SymbolCode(index) as char
  }

  /** The code that n successful reads starting at `pos` spell, one symbol per read. */
  function Spell(rng: Entropy, pos: nat, n: nat): (code: string)
    requires DrawsOk(rng, pos, n)
    ensures |code| == n
  {
    if n == 0 then [] else Spell(rng, pos, n - 1) + [SymbolOf(rng(pos + n - 1).index)]
  }

  /** Symbol i of a spelled code is the one read i selects. */
  lemma {:induction false} SpellAt(rng: Entropy, pos: nat, n: nat, i: nat)
    requires DrawsOk(rng, pos, n) && i < n
    ensures rng(pos + i).Symbol? && Spell(rng, pos, n)[i] == SymbolOf(rng(pos + i).index)
  {
    if i < n - 1 {
      SpellAt(rng, pos, n - 1, i);
    }
  }

  /** Every symbol of a generated code is drawn from the alphabet, so it is alphanumeric. */
  lemma {:induction false} SpelledCodeIsAlphanumeric(rng: Entropy, pos: nat, n: nat)
    requires DrawsOk(rng, pos, n)
    ensures forall c :: c in Spell(rng, pos, n) ==> c in Charset && IsAlphanumeric(c)
  {
    if n > 0 {
      SpelledCodeIsAlphanumeric(rng, pos, n - 1);
      var index := rng(pos + n - 1).index;
      CharsetAt(index);
      CharsetIsAlphanumeric();
      assert Charset[index] == SymbolOf(index);
    }
  }

  /** CreateLink's round i reads the six draws after the 6*i consumed by earlier rounds. */
  function RoundStart(pos: nat, i: nat): nat
  {
    pos + CodeLength * i
  }

  /** The candidate code of round i, when all of its draws succeed. */
  function Candidate(rng: Entropy, pos: nat, i: nat): (code: string)
    requires DrawsOk(rng, RoundStart(pos, i), CodeLength)
    ensures |code| == CodeLength
  {
    Spell(rng, RoundStart(pos, i), CodeLength)
  }

  /** Round i generates a candidate and the lookup finds an existing link with it. */
  predicate Collides(t: LinkTable, rng: Entropy, pos: nat, i: nat)
  {
    && DrawsOk(rng, RoundStart(pos, i), CodeLength)
    && Lookup(t, Candidate(rng, pos, i)).Success?
  }

  /** The first round, from `from` on, that does not end in a collision; MaxRetries if none. */
  function FirstFreeRound(t: LinkTable, rng: Entropy, pos: nat, from: nat): (k: nat)
    requires from <= MaxRetries
    ensures from <= k <= MaxRetries
    ensures forall i :: from <= i < k ==> Collides(t, rng, pos, i)
    ensures k < MaxRetries ==> !Collides(t, rng, pos, k)
    decreases MaxRetries - from
  {
    if from == MaxRetries || !Collides(t, rng, pos, from) then from
    else FirstFreeRound(t, rng, pos, from + 1)
  }

  /** The first-free round is the one both of its properties single out. */
  lemma FirstFreeRoundIs(t: LinkTable, rng: Entropy, pos: nat, k: nat)
    requires k <= MaxRetries
    requires forall i :: 0 <= i < k ==> Collides(t, rng, pos, i)
    requires k < MaxRetries ==> !Collides(t, rng, pos, k)
    ensures FirstFreeRound(t, rng, pos, 0) == k
  {
  }

  /** How the loop of lines 54-70 ends: an early return from CreateLink, or leaving the loop
    * with the last `shortCode` and `err`. */
  datatype Search = Returned(failure: Error) | Exited(shortCode: string, err: Option<Error>)

  /** The loop's outcome, read off the first round that is not a collision. */
  function SearchResult(t: LinkTable, rng: Entropy, pos: nat): (s: Search)
    ensures s.Exited? ==> |s.shortCode| == CodeLength && (s.err.None? || s.err == Some(RecordNotFound))
    ensures s.Returned? ==> s.failure == GenerationFailed(EntropyFailure) || s.failure.UniquenessCheckFailed?
    ensures s.Returned? && s.failure.UniquenessCheckFailed? ==>
              t.lookupFault.Some? && s.failure.cause == StoreFailure(t.lookupFault.value)
  {
    var k := FirstFreeRound(t, rng, pos, 0);
    if k == MaxRetries then
      assert Collides(t, rng, pos, MaxRetries - 1);
      Exited(Candidate(rng, pos, MaxRetries - 1), None)
    else if !DrawsOk(rng, RoundStart(pos, k), CodeLength) then
      Returned(GenerationFailed(EntropyFailure))
    else
      var found := Lookup(t, Candidate(rng, pos, k));
      if found == Failure(RecordNotFound) then Exited(Candidate(rng, pos, k), Some(RecordNotFound))
      else Returned(UniquenessCheckFailed(found.error))
  }

  /** The loop stops in the first round k that is not a collision, and how it stops depends
    * only on that round. */
  lemma SearchStopsAt(t: LinkTable, rng: Entropy, pos: nat, k: nat)
    requires k < MaxRetries
    requires forall i :: 0 <= i < k ==> Collides(t, rng, pos, i)
    requires !Collides(t, rng, pos, k)
    ensures RoundsUsed(t, rng, pos) == k + 1
    ensures !DrawsOk(rng, RoundStart(pos, k), CodeLength) ==>
              SearchResult(t, rng, pos) == Returned(GenerationFailed(EntropyFailure))
    ensures DrawsOk(rng, RoundStart(pos, k), CodeLength) ==>
              var found := Lookup(t, Candidate(rng, pos, k));
              && found.Failure?
              && (found.error == RecordNotFound ==>
                    SearchResult(t, rng, pos) == Exited(Candidate(rng, pos, k), Some(RecordNotFound)))
              && (found.error != RecordNotFound ==>
                    SearchResult(t, rng, pos) == Returned(UniquenessCheckFailed(found.error)))
  {
    FirstFreeRoundIs(t, rng, pos, k);
  }

  /** Five collisions in a row leave the loop with the fifth candidate and no error. */
  lemma SearchRunsOut(t: LinkTable, rng: Entropy, pos: nat)
    requires forall i :: 0 <= i < MaxRetries ==> Collides(t, rng, pos, i)
    ensures RoundsUsed(t, rng, pos) == MaxRetries
    ensures DrawsOk(rng, RoundStart(pos, MaxRetries - 1), CodeLength)
    ensures SearchResult(t, rng, pos) == Exited(Candidate(rng, pos, MaxRetries - 1), None)
  {
    FirstFreeRoundIs(t, rng, pos, MaxRetries);
    assert Collides(t, rng, pos, MaxRetries - 1);
  }

  /** Generate-and-lookup rounds the loop runs. */
  function RoundsUsed(t: LinkTable, rng: Entropy, pos: nat): (n: nat)
    ensures 1 <= n <= MaxRetries
  {
    var k := FirstFreeRound(t, rng, pos, 0);
    if k == MaxRetries then MaxRetries else k + 1
  }

  /** Lines 73-81: the post-loop check and the link that would be inserted (its key still 0). */
  function PostLoop(s: Search, longUrl: string, now: int): (r: Result<Link, Error>)
    ensures r.Success? <==> s.Exited? && s.err.None?
    ensures s.Exited? && s.err.Some? ==> r == Failure(UniqueCodeExhausted)
    ensures s.Returned? ==> r == Failure(s.failure)
    ensures r.Success? ==> && r.value.id == 0 && r.value.longUrl == longUrl && r.value.createdAt == now
                           && r.value.shortCode == "/" + s.shortCode
  {
    match s
    case Returned(e) => Failure(e)
    case Exited(code, err) =>
      if err.Some? then Failure(UniqueCodeExhausted)
      else Success(Link(0, longUrl, "/" + code, now))
  }

  /** The result of GetLinkStats: the link and its total click count. */
  datatype LinkStats = LinkStats(link: Link, totalClicks: nat)

  /** The LinkService struct: a holder for the link repository. */
  class LinkService {
    const linkRepo: LinkRepository

    constructor (linkRepo: LinkRepository)
      ensures this.linkRepo == linkRepo
    {
      this.linkRepo := linkRepo;
    }

    /** Lines 34-44: fills a buffer of `length` symbols, one random read each. */
    method GenerateShortCode(length: nat, rng: Entropy, pos: nat) returns (code: string, err: Option<Error>)
      ensures err.None? <==> DrawsOk(rng, pos, length)
      ensures err.None? ==> code == Spell(rng, pos, length)
      ensures err.Some? ==> code == "" && err.value == EntropyFailure
    {
      var buf := new char[length];
      for i := 0 to length
        invariant DrawsOk(rng, pos, i)
        invariant buf[..i] == Spell(rng, pos, i)
      {
        var d := rng(pos + i);
        if d.ReadFailure? {
          DrawsOkAt(rng, pos, length, i);
          return "", Some(EntropyFailure);
        }
        CharsetAt(d.index);
        buf[i] := Charset[d.index];
        assert buf[..i + 1] == buf[..i] + [buf[i]];
      }
      code, err := buf[..], None;
      assert buf[..] == buf[..length];
    }

    /** Lines 50-70: up to five rounds of generate, look up, then break, return or retry. */
    method SearchShortCode(rng: Entropy, pos: nat) returns (s: Search, ghost rounds: nat)
      ensures s == SearchResult(linkRepo.db.LinkView(), rng, pos)
      ensures rounds == RoundsUsed(linkRepo.db.LinkView(), rng, pos)
      ensures 1 <= rounds <= MaxRetries
    {
      ghost var t := linkRepo.db.LinkView();
      var shortCode: string := "";
      var err: Option<Error> := None;
      for i := 0 to MaxRetries
        invariant linkRepo.db.LinkView() == t
        invariant forall j :: 0 <= j < i ==> Collides(t, rng, pos, j)
        invariant i > 0 ==> DrawsOk(rng, RoundStart(pos, i - 1), CodeLength)
        invariant i > 0 ==> shortCode == Candidate(rng, pos, i - 1) && err.None?
      {
        shortCode, err := GenerateShortCode(CodeLength, rng, RoundStart(pos, i));
        if err.Some? {
          SearchStopsAt(t, rng, pos, i);
          return Returned(GenerationFailed(err.value)), i + 1;
        }
        var found := linkRepo.GetLinkByShortCode(shortCode);
        LookupDetermined(t, shortCode, found);
        if found.Failure? {
          SearchStopsAt(t, rng, pos, i);
          err := Some(found.error);
          if found.error == RecordNotFound {
            return Exited(shortCode, err), i + 1;
          }
          return Returned(UniquenessCheckFailed(found.error)), i + 1;
        }
        err := None;
      }
      SearchRunsOut(t, rng, pos);
      s, rounds := Exited(shortCode, err), MaxRetries;
    }

    /** Lines 49-87: the retry loop, the post-loop check, then the insert. */
    method CreateLink(longUrl: string, rng: Entropy, pos: nat, now: int) returns (r: Result<Link, Error>)
      modifies linkRepo.db
      ensures var planned := old(PostLoop(SearchResult(linkRepo.db.LinkView(), rng, pos), longUrl, now));
              planned.Failure? ==> r == planned && unchanged(linkRepo.db)
      ensures var planned := old(PostLoop(SearchResult(linkRepo.db.LinkView(), rng, pos), longUrl, now));
              var outcome := NextWrite(old(linkRepo.db.writeFaults));
              planned.Success? ==>
                && linkRepo.db.writeFaults == AfterWrite(old(linkRepo.db.writeFaults))
                && linkRepo.db.clicks == old(linkRepo.db.clicks)
                && linkRepo.db.clickCalls == old(linkRepo.db.clickCalls)
                && linkRepo.db.lookupFault == old(linkRepo.db.lookupFault)
                && linkRepo.db.countFault == old(linkRepo.db.countFault)
                && (outcome.Fail? ==> r == Failure(CreateFailed(StoreFailure(outcome.code)))
                                      && linkRepo.db.links == old(linkRepo.db.links))
                && (outcome.Pass? ==> r == Success(planned.value.(id := |old(linkRepo.db.links)| + 1))
                                      && linkRepo.db.links == old(linkRepo.db.links) + [r.value])
    {
      ghost var t := linkRepo.db.LinkView();
      ghost var rows0, faults0 := linkRepo.db.links, linkRepo.db.writeFaults;
      var s, rounds := SearchShortCode(rng, pos);
      var planned := PostLoop(s, longUrl, now);
      assert planned == PostLoop(SearchResult(t, rng, pos), longUrl, now);
      if planned.Failure? {
        return planned;
      }
      var stored, err := linkRepo.CreateLink(planned.value);
      if err.Some? {
        return Failure(CreateFailed(err.value));
      }
      assert NextWrite(faults0).Pass?;
      assert stored == planned.value.(id := |rows0| + 1);
      assert linkRepo.db.links == rows0 + [stored];
      r := Success(stored);
    }

    /** Lines 91-93: the lookup, passed through unchanged. */
    function GetLinkByShortCode(shortCode: string): (r: Result<Link, Error>)
      reads linkRepo.db
      ensures linkRepo.db.lookupFault.Some? ==> r == Failure(StoreFailure(linkRepo.db.lookupFault.value))
      ensures linkRepo.db.lookupFault.None? ==>
                (r.Success? <==> exists i :: 0 <= i < |linkRepo.db.links| && linkRepo.db.links[i].shortCode == shortCode)
      ensures linkRepo.db.lookupFault.None? && r.Failure? ==> r.error == RecordNotFound
      ensures r.Success? ==> r.value in linkRepo.db.links && r.value.shortCode == shortCode
      ensures r.Success? ==> Some(r.value) == FirstWithCode(linkRepo.db.links, shortCode)
    {
      linkRepo.GetLinkByShortCode(shortCode)
    }

    /** Lines 97-109: look the link up, then count the clicks recorded for its key. */
    function GetLinkStats(shortCode: string): (r: Result<LinkStats, Error>)
      reads linkRepo.db
      ensures linkRepo.db.lookupFault.Some? ==>
                r == Failure(RetrieveFailed(StoreFailure(linkRepo.db.lookupFault.value)))
      ensures linkRepo.db.lookupFault.None? && (forall i :: 0 <= i < |linkRepo.db.links| ==> linkRepo.db.links[i].shortCode != shortCode) ==>
                r == Failure(RetrieveFailed(RecordNotFound))
      ensures linkRepo.db.lookupFault.None? && linkRepo.db.countFault.Some? && (exists i :: 0 <= i < |linkRepo.db.links| && linkRepo.db.links[i].shortCode == shortCode) ==>
                r == Failure(CountFailed(StoreFailure(linkRepo.db.countFault.value)))
      ensures r.Success? <==>
                && linkRepo.db.lookupFault.None? && linkRepo.db.countFault.None?
                && exists i :: 0 <= i < |linkRepo.db.links| && linkRepo.db.links[i].shortCode == shortCode
      ensures r.Success? ==>
                && Some(r.value.link) == FirstWithCode(linkRepo.db.links, shortCode)
                && r.value.link in linkRepo.db.links && r.value.link.shortCode == shortCode
                && r.value.totalClicks == CountFor(linkRepo.db.clicks, r.value.link.id)
    {
      match linkRepo.GetLinkByShortCode(shortCode)
      case Failure(e) => Failure(RetrieveFailed(e))
      case Success(link) =>
        match linkRepo.CountClicksByLinkID(link.id)
        case Failure(e) => Failure(CountFailed(e))
        case Success(n) => Success(LinkStats(link, n))
    }
  }

  /** As written, CreateLink reaches the insert only after five collisions, and it inserts the
    * fifth candidate, which the lookup has just found in the store. */
  lemma InsertOnlyAfterFiveCollisions(t: LinkTable, rng: Entropy, pos: nat, longUrl: string, now: int)
    requires PostLoop(SearchResult(t, rng, pos), longUrl, now).Success?
    ensures forall i :: 0 <= i < MaxRetries ==> Collides(t, rng, pos, i)
    ensures RoundsUsed(t, rng, pos) == MaxRetries
    ensures DrawsOk(rng, RoundStart(pos, MaxRetries - 1), CodeLength)
    ensures var code := Candidate(rng, pos, MaxRetries - 1);
            && Lookup(t, code).Success?
            && PostLoop(SearchResult(t, rng, pos), longUrl, now).value == Link(0, longUrl, "/" + code, now)
  {
    assert Collides(t, rng, pos, MaxRetries - 1);
  }

  /** As written, CreateLink reports "no unique short code" exactly when a round found a free one. */
  lemma ExhaustionMeansFreeCode(t: LinkTable, rng: Entropy, pos: nat, longUrl: string, now: int)
    ensures var k := FirstFreeRound(t, rng, pos, 0);
            PostLoop(SearchResult(t, rng, pos), longUrl, now) == Failure(UniqueCodeExhausted)
            <==> (&& k < MaxRetries
                  && DrawsOk(rng, RoundStart(pos, k), CodeLength)
                  && Lookup(t, Candidate(rng, pos, k)) == Failure(RecordNotFound))
  {
    var k := FirstFreeRound(t, rng, pos, 0);
    if k == MaxRetries {
      assert Collides(t, rng, pos, MaxRetries - 1);
    }
  }

  /** As written, lookups use the bare candidate while inserts store "/" + candidate: against a
    * store whose codes all start with '/' (every link CreateLink itself inserts, and the empty
    * store), the first lookup never finds anything, so CreateLink never inserts. */
  lemma SlashedStoreNeverGetsALink(t: LinkTable, rng: Entropy, pos: nat, longUrl: string, now: int)
    requires t.lookupFault.None?
    requires forall i :: 0 <= i < |t.rows| ==>
               |t.rows[i].shortCode| > 0 && t.rows[i].shortCode[0] == '/'
    ensures DrawsOk(rng, pos, CodeLength) ==>
              PostLoop(SearchResult(t, rng, pos), longUrl, now) == Failure(UniqueCodeExhausted)
    ensures !DrawsOk(rng, pos, CodeLength) ==>
              PostLoop(SearchResult(t, rng, pos), longUrl, now) == Failure(GenerationFailed(EntropyFailure))
    ensures RoundsUsed(t, rng, pos) == 1
  {
    if DrawsOk(rng, RoundStart(pos, 0), CodeLength) {
      var code := Candidate(rng, pos, 0);
      SpelledCodeIsAlphanumeric(rng, RoundStart(pos, 0), CodeLength);
      assert code[0] in code;
      assert IsAlphanumeric(code[0]);
      forall i | 0 <= i < |t.rows| ensures t.rows[i].shortCode != code {
        assert t.rows[i].shortCode[0] == '/';
      }
      assert !Collides(t, rng, pos, 0);
    }
    FirstFreeRoundIs(t, rng, pos, 0);
  }
}
