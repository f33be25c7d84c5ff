/** `search_cards`: the first-page parameters, the local filter applied to
    every record, and the rules that stop pagination. */
module CardSearch {
  import opened Wrappers
  import opened Text
  import opened Records

  const PageSize := 100
  /** `pages_to_fetch` */
  const PageCap := 10
  /** The result count at which the loop stops after a page. */
  const ResultThreshold := 10

  /** The `params` dict sent with a request: `page_size`, `search`, `member`. */
  datatype Params = Params(pageSize: Option<int>, search: Option<string>, member: Option<int>)

  /** `params = {}` after the first page. */
  const NoParams := Params(None, None, None)

  /** What one request to the cards endpoint gives the script: any failure
      (network error, error status, undecodable body), or the page's
      `results` and whether its `next` link is set. */
  datatype PageOutcome = Failed | Page(results: seq<Card>, hasNext: bool)

  /** The three arguments of `search_cards` that decide which records are kept.
      An empty `memberIds` stands for `member_ids=None`. */
  datatype Criteria = Criteria(terms: seq<string>, memberIds: seq<int>, rarity: Option<string>)

  /** Check 1: the card's member is one of the ids, when ids are given. */
  predicate MemberOk(card: Card, memberIds: seq<int>)
  {
    memberIds == [] || (card.member.Some? && card.member.value in memberIds)
  }

  /** `str(card.get('i_rarity'))` */
  function RarityText(rarity: Option<int>): string
  {
    match rarity
    case None => "None"
    case Some(n) => IntToDecimal(n)
  }

  /** Check 2: when a non-empty rarity is given, the card's rarity prints as
      exactly that string. */
  predicate RarityOk(card: Card, rarity: Option<string>)
  {
    rarity.None? || rarity.value == "" || RarityText(card.rarity) == rarity.value
  }

  /** Check 3: every term occurs in the lower-cased name or in the
      lower-cased Japanese name (each name on its own). */
  predicate KeywordsOk(card: Card, terms: seq<string>)
  {
    forall t :: t in terms ==> Contains(Lower(card.name), t) || Contains(Lower(card.japaneseName), t)
  }

  predicate Matches(card: Card, criteria: Criteria)
  {
    && MemberOk(card, criteria.memberIds)
    && RarityOk(card, criteria.rarity)
    && KeywordsOk(card, criteria.terms)
  }

  /** `a` is `b` with some elements left out, the rest in the same order. */
  predicate Subsequence<T(==)>(a: seq<T>, b: seq<T>)
    decreases |b|
  {
    if a == [] then true
    else if b == [] then false
    else (a[0] == b[0] && Subsequence(a[1..], b[1..])) || Subsequence(a, b[1..])
  }

  /** The records that pass all three checks, in arrival order. */
  function Keep(records: seq<Card>, criteria: Criteria): seq<Card>
  {
    if records == [] then []
    else if Matches(records[0], criteria) then [records[0]] + Keep(records[1..], criteria)
    else Keep(records[1..], criteria)
  }

  /** Filter soundness and completeness: the kept records are exactly the
      matching ones, each as often as it arrived, and they form a
      subsequence of the input. */
  lemma {:induction false} KeepMeaning(records: seq<Card>, criteria: Criteria)
    ensures forall c :: c in Keep(records, criteria) ==> c in records && Matches(c, criteria)
    ensures forall c :: c in records && Matches(c, criteria) ==> c in Keep(records, criteria)
    ensures forall c :: multiset(Keep(records, criteria))[c] == if Matches(c, criteria) then multiset(records)[c] else 0
    ensures Subsequence(Keep(records, criteria), records)
  {
    if records != [] {
      KeepMeaning(records[1..], criteria);
      assert forall c :: c in records ==> c == records[0] || c in records[1..];
      assert records == [records[0]] + records[1..];
    }
  }

  lemma {:induction false} KeepAppend(a: seq<Card>, b: seq<Card>, criteria: Criteria)
    ensures Keep(a + b, criteria) == Keep(a, criteria) + Keep(b, criteria)
  {
    if a == [] {
      assert a + b == b;
    } else {
      assert (a + b)[1..] == a[1..] + b;
      KeepAppend(a[1..], b, criteria);
    }
  }

  /** The records of the first `n` responses, in order; a failed response
      contributes none. */
  function Fetched(responses: nat -> PageOutcome, n: nat): seq<Card>
  {
    if n == 0 then [] else Fetched(responses, n - 1) + RecordsOf(responses(n - 1))
  }

  function RecordsOf(outcome: PageOutcome): seq<Card>
  {
    if outcome.Failed? then [] else outcome.results
  }

  /** The keyword loop of `search_cards`. */
  method KeywordsMatch(card: Card, terms: seq<string>) returns (match_: bool)
    ensures match_ == KeywordsOk(card, terms)
  {
    var cardName := Lower(card.name);
    var cardJp := Lower(card.japaneseName);
    for k := 0 to |terms|
      invariant forall i :: 0 <= i < k ==> Contains(cardName, terms[i]) || Contains(cardJp, terms[i])
    {
      if !Contains(cardName, terms[k]) && !Contains(cardJp, terms[k]) {
        return false;
      }
    }
    return true;
  }

  /** The loop of `search_cards` over the records of one page: the three
      checks in order, `continue` on the first that fails. */
  method FilterPage(results: seq<Card>, terms: seq<string>, memberIds: seq<int>, rarity: Option<string>)
    returns (kept: seq<Card>)
    ensures kept == Keep(results, Criteria(terms, memberIds, rarity))
  {
    ghost var criteria := Criteria(terms, memberIds, rarity);
    kept := [];
    for i := 0 to |results|
      invariant kept == Keep(results[..i], criteria)
    {
      var card := results[i];
      assert results[..i + 1] == results[..i] + [card];
      KeepAppend(results[..i], [card], criteria);
      if memberIds != [] && (card.member.None? || card.member.value !in memberIds) {
        continue;
      }
      if rarity.Some? && rarity.value != "" && RarityText(card.rarity) != rarity.value {
        continue;
      }
      var match_ := KeywordsMatch(card, terms);
      if match_ {
        kept := kept + [card];
      }
    }
    assert results[..|results|] == results;
  }

  /** The `params` of the first request: `page_size=100`, plus the first
      term when there are terms, or else the first member id when there are
      member ids. */
  function FirstPageParams(terms: seq<string>, memberIds: seq<int>): (p: Params)
    ensures p.pageSize == Some(PageSize)
    ensures p.search.Some? <==> terms != []
    ensures p.search.Some? ==> p.search.value == terms[0]
    ensures p.member.Some? <==> terms == [] && memberIds != []
    ensures p.member.Some? ==> p.member.value == memberIds[0]
  {
    var params := Params(Some(PageSize), None, None);
    if terms != [] then params.(search := Some(terms[0]))
    else if memberIds != [] then params.(member := Some(memberIds[0]))
    else params
  }

  /** The number of requests `search_cards` makes in all, counted from the
      head of its loop with `current_page == k` and `url` set or not: the
      loop runs while the url is set and fewer than ten pages were fetched,
      a failure ends it after its request, and so does a page that brings
      the count of kept records to the threshold. */
  function RequestCount(responses: nat -> PageOutcome, criteria: Criteria, k: nat, hasUrl: bool): nat
    decreases PageCap - k
  {
    if !hasUrl || k >= PageCap then k
    else match responses(k)
      case Failed => k + 1
      case Page(_, next) =>
        if |Keep(Fetched(responses, k + 1), criteria)| >= ResultThreshold then k + 1
        else RequestCount(responses, criteria, k + 1, next)
  }

  /** Request `j` returned a page with a `next` link, and the records kept
      so far number fewer than the threshold: the loop goes on after it. */
  ghost predicate GoesOnAfter(responses: nat -> PageOutcome, criteria: Criteria, j: nat)
  {
    && responses(j).Page? && responses(j).hasNext
    && |Keep(Fetched(responses, j + 1), criteria)| < ResultThreshold
  }

  /** How the count unfolds at request `k`: it stops right after it unless
      the loop goes on, and then it is the count from the next request. */
  lemma RequestCountStep(responses: nat -> PageOutcome, criteria: Criteria, k: nat)
    requires k < PageCap
    ensures RequestCount(responses, criteria, k, true) ==
      if GoesOnAfter(responses, criteria, k) then RequestCount(responses, criteria, k + 1, true) else k + 1
  {
    if responses(k).Page? && !responses(k).hasNext {
      assert RequestCount(responses, criteria, k + 1, false) == k + 1;
    }
  }

  /** Pagination halts: between one and ten requests are made. */
  lemma {:induction false} RequestCountBounds(responses: nat -> PageOutcome, criteria: Criteria, k: nat)
    requires k < PageCap
    decreases PageCap - k
    ensures k < RequestCount(responses, criteria, k, true) <= PageCap
  {
    RequestCountStep(responses, criteria, k);
    if GoesOnAfter(responses, criteria, k) && k + 1 < PageCap {
      RequestCountBounds(responses, criteria, k + 1);
    }
  }

  /** The loop went on after every request but the last: each of them
      returned a page with a `next` link and left fewer than ten records. */
  lemma {:induction false} RequestCountContinues(responses: nat -> PageOutcome, criteria: Criteria, k: nat)
    requires k < PageCap
    decreases PageCap - k
    ensures forall j :: k <= j < RequestCount(responses, criteria, k, true) - 1 ==> GoesOnAfter(responses, criteria, j)
  {
    RequestCountStep(responses, criteria, k);
    if GoesOnAfter(responses, criteria, k) && k + 1 < PageCap {
      RequestCountContinues(responses, criteria, k + 1);
      assert RequestCount(responses, criteria, k, true) == RequestCount(responses, criteria, k + 1, true);
    }
  }

  /** The last request hit the page cap, failed, had no `next` link, or
      brought the kept records to ten or more (possibly well over ten, as
      the count is checked only after a whole page). */
  lemma {:induction false} RequestCountStops(responses: nat -> PageOutcome, criteria: Criteria, k: nat)
    requires k < PageCap
    decreases PageCap - k
    ensures var n := RequestCount(responses, criteria, k, true);
      n > k && (
      || n == PageCap
      || responses(n - 1).Failed?
      || !responses(n - 1).hasNext
      || |Keep(Fetched(responses, n), criteria)| >= ResultThreshold)
  {
    RequestCountStep(responses, criteria, k);
    if GoesOnAfter(responses, criteria, k) && k + 1 < PageCap {
      RequestCountStops(responses, criteria, k + 1);
    }
  }

  /** What one successful page adds to the results and to the request count. */
  lemma PageStep(responses: nat -> PageOutcome, criteria: Criteria, k: nat)
    requires k < PageCap && responses(k).Page?
    ensures Keep(Fetched(responses, k + 1), criteria) ==
      Keep(Fetched(responses, k), criteria) + Keep(responses(k).results, criteria)
    ensures RequestCount(responses, criteria, k, true) ==
      if |Keep(Fetched(responses, k + 1), criteria)| >= ResultThreshold then k + 1
      else RequestCount(responses, criteria, k + 1, responses(k).hasNext)
  {
    KeepAppend(Fetched(responses, k), responses(k).results, criteria);
  }

  /** A failed request adds no results and ends the loop. */
  lemma FailureStep(responses: nat -> PageOutcome, criteria: Criteria, k: nat)
    requires k < PageCap && responses(k).Failed?
    ensures Fetched(responses, k + 1) == Fetched(responses, k)
    ensures RequestCount(responses, criteria, k, true) == k + 1
  {
    assert Fetched(responses, k) + [] == Fetched(responses, k);
  }

  /** The cards `search_cards` returns: the kept records of every page
      fetched before the loop stopped. */
  function SearchResult(responses: nat -> PageOutcome, criteria: Criteria): seq<Card>
  {
    Keep(Fetched(responses, RequestCount(responses, criteria, 0, true)), criteria)
  }

  /** The `params` of `n` requests: the first page's, then empty ones. */
  function RequestLog(first: Params, n: nat): (r: seq<Params>)
    ensures |r| == n
    ensures n > 0 ==> r[0] == first
    ensures forall k :: 1 <= k < n ==> r[k] == NoParams
  {
    if n == 0 then [] else RequestLog(first, n - 1) + [if n == 1 then first else NoParams]
  }

  /** `search_cards(query_terms, member_ids, rarity)` against an endpoint
      whose i-th response is `responses(i)`. `sent` lists the parameters of
      each request made. The first request carries `page_size=100` and the
      first term, or else the first member id; later ones carry none. The
      number of requests is `RequestCount`, and the result is exactly the
      matching records of the pages fetched, in arrival order. */
  method SearchCards(terms: seq<string>, memberIds: seq<int>, rarity: Option<string>, responses: nat -> PageOutcome)
    returns (cards: seq<Card>, sent: seq<Params>)
    ensures sent == RequestLog(FirstPageParams(terms, memberIds), RequestCount(responses, Criteria(terms, memberIds, rarity), 0, true))
    ensures cards == SearchResult(responses, Criteria(terms, memberIds, rarity))
  {
    var criteria := Criteria(terms, memberIds, rarity);
    var params := FirstPageParams(terms, memberIds);
    ghost var first := params;
    cards, sent := [], [];
    var hasUrl := true;
    var currentPage := 0;
    while hasUrl && currentPage < PageCap
      invariant 0 <= currentPage <= PageCap
      invariant currentPage == 0 ==> hasUrl
      invariant sent == RequestLog(first, currentPage)
      invariant params == if currentPage == 0 then first else NoParams
      invariant cards == Keep(Fetched(responses, currentPage), criteria)
      invariant RequestCount(responses, criteria, 0, true) == RequestCount(responses, criteria, currentPage, hasUrl)
    {
      sent := sent + [params];
      var outcome := responses(currentPage);
      if outcome.Failed? {
        FailureStep(responses, criteria, currentPage);
        break;
      }
      PageStep(responses, criteria, currentPage);
      var kept := FilterPage(outcome.results, terms, memberIds, rarity);
      cards := cards + kept;
      hasUrl := outcome.hasNext;
      params := NoParams;
      currentPage := currentPage + 1;
      if |cards| >= ResultThreshold {
        break;
      }
    }
  }

  /** A rarity flag that is the decimal form of a number keeps exactly the
      cards of that rarity, since `str` of an integer is injective and no
      integer prints as "None". */
  lemma RarityFilterIsExact(card: Card, n: int)
    ensures RarityOk(card, Some(IntToDecimal(n))) <==> card.rarity == Some(n)
  {
    var flag := IntToDecimal(n);
    assert flag[0] == '-' || IsDigit(flag[0]);
    match card.rarity
    case None =>
      assert "None"[0] == 'N';
    case Some(r) =>
      if IntToDecimal(r) == flag {
        IntToDecimalInjective(r, n);
      }
  }
}
